/** The two shot searches. A trial runs the physics engine on one shot, feeds
    its contacts to the collision classifier, judges the log and scores it. The
    engine is a parameter: for a fixed table and ball layout it maps a shot (with
    its power already clamped) to the contacts the cue ball makes, in order. */
module Search {
  import opened Wrappers
  import opened Carom
  import opened Classifier
  import opened Legality
  import opened Scoring
  import opened Selection
  import opened Grid

  /** The physics engine for one table and ball layout. */
  type Physics = Shot -> seq<Contact>

  /** The tuple a search keeps: `(shot_score, angle, power, offset, reason, traj, clog)`
      without the trajectory. */
  datatype Trial = Trial(shot: Shot, log: seq<Symbol>, verdict: Verdict, score: int)

  /** The collision log of one `simulate_shot` call. */
  function PlayShot(physics: Physics, cue: Cue, shot: Shot): seq<Symbol> {
    CollisionLog(cue, physics(Shot(shot.angle, ClampPower(shot.power), shot.offset)))
  }

  function V1Trial(physics: Physics, cue: Cue, shot: Shot): Trial {
    var log := PlayShot(physics, cue, shot);
    Trial(shot, log, Judge(cue, log), V1TrialScore(log))
  }

  function Sim6Trial(physics: Physics, cue: Cue, shot: Shot): Trial {
    var log := PlayShot(physics, cue, shot);
    Trial(shot, log, Judge(cue, log), Sim6TrialScore(log))
  }

  function V1Trials(physics: Physics, cue: Cue, shots: seq<Shot>): (ts: seq<Trial>)
    ensures |ts| == |shots|
    ensures forall i :: 0 <= i < |shots| ==> ts[i] == V1Trial(physics, cue, shots[i])
  {
    seq(|shots|, i requires 0 <= i < |shots| => V1Trial(physics, cue, shots[i]))
  }

  function Sim6Trials(physics: Physics, cue: Cue, shots: seq<Shot>): (ts: seq<Trial>)
    ensures |ts| == |shots|
    ensures forall i :: 0 <= i < |shots| ==> ts[i] == Sim6Trial(physics, cue, shots[i])
  {
    seq(|shots|, i requires 0 <= i < |shots| => Sim6Trial(physics, cue, shots[i]))
  }

  /** Every power either search enumerates lies in [1, 10], so the clamp in
      `simulate_shot` never moves it: the engine plays the grid's own shot. */
  lemma {:induction false} GridShotsUnclamped(physics: Physics, cue: Cue, best: Shot)
    ensures forall s :: s in V1Grid() ==> PlayShot(physics, cue, s) == CollisionLog(cue, physics(s))
    ensures forall s :: s in CoarseGrid() ==> PlayShot(physics, cue, s) == CollisionLog(cue, physics(s))
    ensures forall s :: s in FineGrid(best) ==> PlayShot(physics, cue, s) == CollisionLog(cue, physics(s))
  {
    PowerRange();
    ProductMembers(Range(0, 360, 5), Range(1, 11, 1), [Centre]);
    ProductMembers(Range(0, 360, 10), Range(1, 11, 1), [Centre]);
    FinePowersShape(best.power);
    ProductMembers(FineAngles(best.angle), FinePowers(best.power), OffsetsAround(best.offset));
  }

  predicate IsLegal(t: Trial) {
    t.verdict.legal
  }

  /** The v1 preferred pool: legal, and the log opens on "R" or "Y". */
  predicate Preferred(t: Trial) {
    t.verdict.legal && OpensOnRedOrYellow(t.log)
  }

  /** The v1 backup pool: legal, and the log opens on anything else. */
  predicate Backup(t: Trial) {
    t.verdict.legal && !OpensOnRedOrYellow(t.log)
  }

  function ScoreOf(t: Trial): int {
    t.score
  }

  // ---------------------------------------------------------------------------
  // The v1 copy: `find_direct_path_shot`

  function V1Candidates(physics: Physics, cue: Cue): seq<Trial> {
    V1Trials(physics, cue, V1Grid())
  }

  /** The choice `find_direct_path_shot` makes among trials `ts`: None exactly
      when no trial is legal; the first best preferred trial when there is a
      preferred one; otherwise the first best backup trial. */
  ghost predicate ChoosesDirectPath(ts: seq<Trial>, r: Option<Trial>) {
    && (r.None? <==> forall i :: 0 <= i < |ts| ==> !IsLegal(ts[i]))
    && ((exists i :: 0 <= i < |ts| && Preferred(ts[i])) ==>
          exists i :: IsFirstBest(ts, Preferred, ScoreOf, i) && r == Some(ts[i]))
    && ((forall i :: 0 <= i < |ts| ==> !Preferred(ts[i])) && r.Some? ==>
          exists i :: IsFirstBest(ts, Backup, ScoreOf, i) && r == Some(ts[i]))
  }

  /** `find_direct_path_shot`: the first best preferred trial, else the first
      best backup trial, else None; never an illegal trial. */
  function FindDirectPathShot(physics: Physics, cue: Cue): (r: Option<Trial>)
    ensures ChoosesDirectPath(V1Candidates(physics, cue), r)
    ensures r.Some? ==> r.value in V1Candidates(physics, cue)
    ensures r.Some? ==> r.value.verdict.legal && |r.value.log| >= 5
  {
    var ts := V1Candidates(physics, cue);
    match Best(ts, Preferred, ScoreOf)
    case Some(i) =>
      PreferredChosen(ts, i);
      V1TrialLegalShape(physics, cue, V1Grid(), i);
      Some(ts[i])
    case None =>
      match Best(ts, Backup, ScoreOf)
      case Some(i) =>
        BackupChosen(ts, i);
        V1TrialLegalShape(physics, cue, V1Grid(), i);
        Some(ts[i])
      case None =>
        NoneChosen(ts);
        None
  }

  /** A legal v1 trial has a log of at least five contacts. */
  lemma V1TrialLegalShape(physics: Physics, cue: Cue, shots: seq<Shot>, i: int)
    requires 0 <= i < |shots| && V1Trials(physics, cue, shots)[i].verdict.legal
    ensures |V1Trials(physics, cue, shots)[i].log| >= 5
  {
    LegalLogShape(cue, V1Trials(physics, cue, shots)[i].log);
  }

  lemma PreferredChosen(ts: seq<Trial>, i: int)
    requires IsFirstBest(ts, Preferred, ScoreOf, i)
    ensures ChoosesDirectPath(ts, Some(ts[i]))
  {
  }

  lemma BackupChosen(ts: seq<Trial>, i: int)
    requires forall j :: 0 <= j < |ts| ==> !Preferred(ts[j])
    requires IsFirstBest(ts, Backup, ScoreOf, i)
    ensures ChoosesDirectPath(ts, Some(ts[i]))
  {
  }

  lemma NoneChosen(ts: seq<Trial>)
    requires forall j :: 0 <= j < |ts| ==> !Preferred(ts[j])
    requires forall j :: 0 <= j < |ts| ==> !Backup(ts[j])
    ensures ChoosesDirectPath(ts, None)
  {
    assert forall j :: 0 <= j < |ts| ==> !IsLegal(ts[j]) by {
      forall j | 0 <= j < |ts| ensures !IsLegal(ts[j]) {
        assert !Preferred(ts[j]) && !Backup(ts[j]);
      }
    }
  }

  /** Every trial in the v1 pools scores by its tier: 230 or 180 less twice the log length. */
  lemma V1ResultScore(physics: Physics, cue: Cue)
    ensures var r := FindDirectPathShot(physics, cue);
      r.Some? ==> r.value.score == (if OpensOnRedOrYellow(r.value.log) then 230 else 180) - 2 * |r.value.log|
  {
    var r := FindDirectPathShot(physics, cue);
    if r.Some? {
      var ts := V1Candidates(physics, cue);
      var i :| 0 <= i < |ts| && ts[i] == r.value;
      assert ts[i] == V1Trial(physics, cue, V1Grid()[i]);
      V1TrialScoreTiers(cue, ts[i].log);
    }
  }

  /** Within a pool every log has the same tier, so the first best trial is the
      first one with the shortest log. */
  lemma V1PoolPrefersShortLogs(physics: Physics, cue: Cue, i: nat, j: nat)
    requires var ts := V1Candidates(physics, cue);
      i < |ts| && j < |ts| && ts[i].verdict.legal && ts[j].verdict.legal
      && OpensOnRedOrYellow(ts[i].log) == OpensOnRedOrYellow(ts[j].log)
    ensures var ts := V1Candidates(physics, cue);
      ts[i].score <= ts[j].score <==> |ts[j].log| <= |ts[i].log|
  {
    var ts := V1Candidates(physics, cue);
    V1TrialScoreTiers(cue, ts[i].log);
    V1TrialScoreTiers(cue, ts[j].log);
  }

  /** Under a yellow cue the first-contact test still reads "R" or "Y", so a
      legal trial that opens on the white object ball lands in the backup pool. */
  lemma WhiteOpeningUnderYellowCueIsBackup(t: Trial)
    requires t.verdict.legal && |t.log| > 0 && t.log[0] == W
    ensures Backup(t) && !Preferred(t)
  {
  }

  // ---------------------------------------------------------------------------
  // The sim6 copy: `adaptive_search`

  function CoarseCandidates(physics: Physics, cue: Cue): seq<Trial> {
    Sim6Trials(physics, cue, CoarseGrid())
  }

  /** Phase 1: the first best legal trial of the coarse grid, None when no trial is legal. */
  function CoarseBest(physics: Physics, cue: Cue): (r: Option<Trial>)
    ensures var ts := CoarseCandidates(physics, cue);
      && (r.None? <==> forall i :: 0 <= i < |ts| ==> !IsLegal(ts[i]))
      && (r.Some? ==> exists i :: IsFirstBest(ts, IsLegal, ScoreOf, i) && r.value == ts[i])
  {
    var ts := CoarseCandidates(physics, cue);
    match Best(ts, IsLegal, ScoreOf)
    case None => None
    case Some(i) => Some(ts[i])
  }

  function FineCandidates(physics: Physics, cue: Cue, best: Trial): seq<Trial> {
    Sim6Trials(physics, cue, FineGrid(best.shot))
  }

  /** Phase 2: the first best legal trial of the fine grid around `best`, or
      `best` itself when no fine trial is legal. */
  function Refine(physics: Physics, cue: Cue, best: Trial): (r: Trial)
    ensures var ts := FineCandidates(physics, cue, best);
      && ((forall k :: 0 <= k < |ts| ==> !IsLegal(ts[k])) ==> r == best)
      && ((exists k :: 0 <= k < |ts| && IsLegal(ts[k])) ==> exists k :: IsFirstBest(ts, IsLegal, ScoreOf, k) && r == ts[k])
  {
    var ts := FineCandidates(physics, cue, best);
    match Best(ts, IsLegal, ScoreOf)
    case None => best
    case Some(k) => ts[k]
  }

  /** The fine grid around a coarse winner holds the winner's own shot. */
  lemma FineRetriesBest(physics: Physics, cue: Cue, best: Trial)
    requires best == Sim6Trial(physics, cue, best.shot) && 0 <= best.shot.angle < 360 && 1 <= best.shot.power <= 10
    ensures exists j :: 0 <= j < |FineCandidates(physics, cue, best)| && FineCandidates(physics, cue, best)[j] == best
  {
    FineGridContainsCentre(best.shot);
    var j :| 0 <= j < |FineGrid(best.shot)| && FineGrid(best.shot)[j] == best.shot;
    assert FineCandidates(physics, cue, best)[j] == best;
  }

  /** When `best` is a legal trial of its own shot, with a reduced angle and a
      power in [1, 10], the fine grid re-tries that shot: the fallback is never
      taken, and the refined trial is legal, inside the grid's ranges and never
      scores below `best`. */
  lemma RefineImproves(physics: Physics, cue: Cue, best: Trial)
    requires best == Sim6Trial(physics, cue, best.shot) && best.verdict.legal
    requires 0 <= best.shot.angle < 360 && 1 <= best.shot.power <= 10
    ensures var ts := FineCandidates(physics, cue, best);
      exists k :: IsFirstBest(ts, IsLegal, ScoreOf, k) && Refine(physics, cue, best) == ts[k]
    ensures var r := Refine(physics, cue, best);
      && r.verdict.legal && r.score >= best.score
      && 0 <= r.shot.angle < 360 && 1 <= r.shot.power <= 10
      && r == Sim6Trial(physics, cue, r.shot)
  {
    var ts := FineCandidates(physics, cue, best);
    FineRetriesBest(physics, cue, best);
    var j :| 0 <= j < |ts| && ts[j] == best;
    assert IsLegal(ts[j]);
    var o := Best(ts, IsLegal, ScoreOf);
    assert o.Some?;
    var k := o.value;
    assert Refine(physics, cue, best) == ts[k];
    assert IsFirstBest(ts, IsLegal, ScoreOf, k);
    assert ScoreOf(ts[j]) <= ScoreOf(ts[k]);
    var grid := FineGrid(best.shot);
    FineGridContainsCentre(best.shot);
    assert ts[k] == Sim6Trial(physics, cue, grid[k]);
    assert grid[k] in grid;
  }

  /** The coarse winner meets the conditions under which refinement improves. */
  lemma CoarseBestIsOwnTrial(physics: Physics, cue: Cue)
    requires CoarseBest(physics, cue).Some?
    ensures var b := CoarseBest(physics, cue).value;
      && b == Sim6Trial(physics, cue, b.shot) && b.verdict.legal
      && 0 <= b.shot.angle < 360 && 1 <= b.shot.power <= 10
      && forall i :: 0 <= i < |CoarseCandidates(physics, cue)| && IsLegal(CoarseCandidates(physics, cue)[i]) ==>
           CoarseCandidates(physics, cue)[i].score <= b.score
  {
    var ts := CoarseCandidates(physics, cue);
    var i :| IsFirstBest(ts, IsLegal, ScoreOf, i) && CoarseBest(physics, cue).value == ts[i];
    CoarseGridShape();
    assert CoarseGrid()[i] in CoarseGrid();
  }

  /** `adaptive_search`: None exactly when no coarse trial is legal; otherwise
      `max(best_fine)`, the first best legal trial of the fine grid around the
      coarse winner: a legal trial of its own shot, inside the grid's ranges,
      scoring at least as well as every legal coarse trial. */
  function AdaptiveSearch(physics: Physics, cue: Cue): (r: Option<Trial>)
    ensures var ts := CoarseCandidates(physics, cue);
      && (r.None? <==> forall i :: 0 <= i < |ts| ==> !IsLegal(ts[i]))
      && (r.Some? ==> r.value.verdict.legal)
      && (r.Some? ==> 0 <= r.value.shot.angle < 360 && 1 <= r.value.shot.power <= 10)
      && (r.Some? ==> forall i :: 0 <= i < |ts| && IsLegal(ts[i]) ==> ts[i].score <= r.value.score)
      && (r.Some? ==> r.value.score == 150 - 2 * |r.value.log|)
    ensures r.Some? ==> CoarseBest(physics, cue).Some? && r.value == Refine(physics, cue, CoarseBest(physics, cue).value)
    ensures r.Some? ==>
              && CoarseBest(physics, cue).Some?
              && var fine := FineCandidates(physics, cue, CoarseBest(physics, cue).value);
                 exists k :: IsFirstBest(fine, IsLegal, ScoreOf, k) && r.value == fine[k]
    ensures r.Some? ==> r.value == Sim6Trial(physics, cue, r.value.shot)
  {
    match CoarseBest(physics, cue)
    case None => None
    case Some(b) =>
      CoarseBestIsOwnTrial(physics, cue);
      RefineImproves(physics, cue, b);
      var r := Refine(physics, cue, b);
      Sim6LegalScore(cue, r.log);
      Some(r)
  }

  /** In the sim6 copy every kept trial scores 150 less twice its log length,
      so a higher score means a shorter log. */
  lemma Sim6PrefersShortLogs(a: Trial, b: Trial, physics: Physics, cue: Cue)
    requires a == Sim6Trial(physics, cue, a.shot) && b == Sim6Trial(physics, cue, b.shot)
    requires a.verdict.legal && b.verdict.legal
    ensures a.score <= b.score <==> |b.log| <= |a.log|
  {
    Sim6LegalScore(cue, a.log);
    Sim6LegalScore(cue, b.log);
  }
}
