/** The integer shot scorer (`first_collision_is_object_ball`,
    `compute_shot_score`), the per-trial score tiers of the v1 copy's
    `simulate_shot`, and the power clamp both copies apply before a shot. */
module Scoring {
  import opened Carom
  import opened Legality

  /** The bonus for a log with an object-ball contact and the penalty otherwise. */
  datatype Weights = Weights(bonus: int, penalty: int)

  const V1Weights: Weights := Weights(80, 50)
  const Sim6Weights: Weights := Weights(50, 30)

  /** `first_collision_is_object_ball`: despite its name, it returns at the
      first symbol that is not a cushion anywhere in the log. */
  function HasNonCushion(log: seq<Symbol>): (r: bool)
    ensures r <==> exists i :: 0 <= i < |log| && log[i] != C
  {
    if |log| == 0 then false
    else if log[0] != C then true
    else
      var r := HasNonCushion(log[1..]);
      assert forall i :: 0 < i < |log| ==> log[i] == log[1..][i - 1];
      r
  }

  /** `compute_shot_score(log, base)` with a copy's weights. */
  function ShotScore(w: Weights, log: seq<Symbol>, base: int): int {
    var adjusted := if HasNonCushion(log) then base + w.bonus else base - w.penalty;
    adjusted - |log| * 2
  }

  /** The name promises a test of the first symbol, but a log that opens with a
      cushion still earns the bonus once any ball follows. */
  lemma CushionFirstStillEarnsBonus(w: Weights)
    ensures HasNonCushion([C, R])
    ensures ShotScore(w, [C, R], 100) == 100 + w.bonus - 4
  {
    assert [C, R][1] != C;
  }

  /** A log of cushions only is penalised; any ball contact earns the bonus. */
  lemma ShotScoreCases(w: Weights, log: seq<Symbol>, base: int)
    ensures (forall i :: 0 <= i < |log| ==> log[i] == C) ==> ShotScore(w, log, base) == base - w.penalty - 2 * |log|
    ensures (exists i :: 0 <= i < |log| && log[i] != C) ==> ShotScore(w, log, base) == base + w.bonus - 2 * |log|
  {
  }

  /** Among logs that agree on containing a ball, a longer log scores strictly lower. */
  lemma ShotScoreDecreasesWithLength(w: Weights, a: seq<Symbol>, b: seq<Symbol>, base: int)
    requires HasNonCushion(a) == HasNonCushion(b)
    ensures |a| < |b| ==> ShotScore(w, a, base) > ShotScore(w, b, base)
    ensures ShotScore(w, a, base) - ShotScore(w, b, base) == 2 * (|b| - |a|)
  {
  }

  /** A legal log always contains an object ball, so it always earns the bonus. */
  lemma LegalShotScore(w: Weights, cue: Cue, log: seq<Symbol>, base: int)
    requires Judge(cue, log).legal
    ensures ShotScore(w, log, base) == base + w.bonus - 2 * |log|
  {
    LegalLogShape(cue, log);
    assert R in Seen(cue, log);
    var k :| 0 <= k < |log| && log[k] == R;
  }

  /** The preferred-pool test of the v1 search: the log opens with red or yellow. */
  predicate OpensOnRedOrYellow(log: seq<Symbol>) {
    |log| > 0 && (log[0] == R || log[0] == Y)
  }

  /** The score `simulate_shot` of the v1 copy attaches to a trial. */
  function V1TrialScore(log: seq<Symbol>): int {
    if |log| > 0 then
      if log[0] == R || log[0] == Y then ShotScore(V1Weights, log, 150)
      else ShotScore(V1Weights, log, 100)
    else 50
  }

  /** The v1 trial tiers: an empty log scores 50; base 150 for a log opening on
      red or yellow, base 100 otherwise (a white opening under a yellow cue
      included); a legal log therefore scores 230 or 180 less twice its length. */
  lemma V1TrialScoreTiers(cue: Cue, log: seq<Symbol>)
    ensures |log| == 0 ==> V1TrialScore(log) == 50
    ensures |log| > 0 ==> V1TrialScore(log) == ShotScore(V1Weights, log, if OpensOnRedOrYellow(log) then 150 else 100)
    ensures Judge(cue, log).legal && OpensOnRedOrYellow(log) ==> V1TrialScore(log) == 230 - 2 * |log|
    ensures Judge(cue, log).legal && !OpensOnRedOrYellow(log) ==> V1TrialScore(log) == 180 - 2 * |log|
  {
    if Judge(cue, log).legal {
      LegalLogShape(cue, log);
      LegalShotScore(V1Weights, cue, log, 150);
      LegalShotScore(V1Weights, cue, log, 100);
    }
  }

  lemma WhiteOpeningUsesBaseHundred()
    ensures V1TrialScore([W, C]) == 100 + 80 - 4
  {
    assert [W, C][0] != C;
  }

  /** The sim6 copy scores every kept trial with base 100: a legal log scores
      150 less twice its length. */
  function Sim6TrialScore(log: seq<Symbol>): int {
    ShotScore(Sim6Weights, log, 100)
  }

  lemma Sim6LegalScore(cue: Cue, log: seq<Symbol>)
    requires Judge(cue, log).legal
    ensures Sim6TrialScore(log) == 150 - 2 * |log|
  {
    LegalShotScore(Sim6Weights, cue, log, 100);
  }

  /** `power_gauge = min(power_gauge, 10.0)` then raising a negative value to 0. */
  function ClampPower(p: int): (r: int)
    ensures 0 <= r <= 10
    ensures 0 <= p <= 10 ==> r == p
    ensures p > 10 ==> r == 10
    ensures p < 0 ==> r == 0
  {
    var capped := if p < 10 then p else 10;
    if capped < 0 then 0 else capped
  }
}
