/** The 3-cushion legality judge (`check_3cushion_score`). `Judge` is the scan
    of qfit/model_src/qfit_simulation_v1.py, which reads the whole log;
    `JudgeWithBreak` is the loop of server/pymunk_sim6.py, which stops once the
    second object ball has been validly hit. Both return the same verdict. */
module Legality {
  import opened Carom

  datatype Reason =
    | Scored                     // "정상 득점(3쿠션)"
    | CushionsShortAtSecondBall  // fewer than three cushions when the second object ball is first hit
    | NoObjectBall               // no object ball hit
    | OneObjectBall              // only one object ball hit
    | UnderThreeCushions         // the final fallback message, which no log reaches

  datatype Verdict = Verdict(legal: bool, reason: Reason)

  /** Which simulator copy's wording a reason is reported in. */
  datatype Copy = QfitV1 | ServerSim6

  function Message(copy: Copy, reason: Reason): string {
    match reason
    case Scored => "정상 득점(3쿠션)"
    case CushionsShortAtSecondBall => if copy == QfitV1 then "3쿠션 미달" else "두 번째 목적구 전 쿠션 부족"
    case NoObjectBall => "목적구 전혀 못 맞힘"
    case OneObjectBall => "목적구 1개만 맞힘"
    case UnderThreeCushions => "쿠션 3회 미만"
  }

  /** The number of cushion symbols in `s`. */
  function Cushions(s: seq<Symbol>): nat {
    if |s| == 0 then 0 else Cushions(s[..|s| - 1]) + (if s[|s| - 1] == C then 1 else 0)
  }

  /** The distinct object balls that occur in `s`. */
  function Seen(cue: Cue, s: seq<Symbol>): set<Symbol> {
    set x | x in s && x in ObjectBalls(cue)
  }

  /** Position `i` is where the second distinct object ball is hit for the first
      time: an object ball not seen before, with the other one already seen. */
  predicate IsSecondObjectHit(cue: Cue, log: seq<Symbol>, i: int) {
    0 <= i < |log| && log[i] in ObjectBalls(cue) && Seen(cue, log[..i]) == ObjectBalls(cue) - {log[i]}
  }

  /** The shot counts: at the second object ball's first hit, three or more cushions came before. */
  ghost predicate LegalShot(cue: Cue, log: seq<Symbol>) {
    exists i :: IsSecondObjectHit(cue, log, i) && Cushions(log[..i]) >= 3
  }

  /** The second object ball was reached with fewer than three cushions before it. */
  ghost predicate ShortOfCushions(cue: Cue, log: seq<Symbol>) {
    exists i :: IsSecondObjectHit(cue, log, i) && Cushions(log[..i]) < 3
  }

  /** The v1 loop from position `i` with its running cushion count, its set of
      object balls hit so far and its `second_ball_hit` flag. */
  function Scan(cue: Cue, log: seq<Symbol>, i: nat, cushions: nat, hit: set<Symbol>, secondHit: bool): Verdict
    requires i <= |log|
    decreases |log| - i
  {
    if i == |log| then
      if secondHit then Verdict(true, Scored)
      else if |hit| == 0 then Verdict(false, NoObjectBall)
      else if |hit| == 1 then Verdict(false, OneObjectBall)
      else Verdict(false, UnderThreeCushions)
    else
      var ch := log[i];
      if ch == C then Scan(cue, log, i + 1, cushions + 1, hit, secondHit)
      else if ch in ObjectBalls(cue) && ch !in hit then
        var hit' := hit + {ch};
        if |hit'| == 2 then
          if cushions >= 3 then Scan(cue, log, i + 1, cushions, hit', true)
          else Verdict(false, CushionsShortAtSecondBall)
        else Scan(cue, log, i + 1, cushions, hit', secondHit)
      else Scan(cue, log, i + 1, cushions, hit, secondHit)
  }

  /** `check_3cushion_score(log, cue)`. */
  function Judge(cue: Cue, log: seq<Symbol>): Verdict {
    Scan(cue, log, 0, 0, {}, false)
  }

  // ---------------------------------------------------------------------------
  // Facts about prefixes

  lemma PrefixStep(cue: Cue, log: seq<Symbol>, i: nat)
    requires i < |log|
    ensures Cushions(log[..i + 1]) == Cushions(log[..i]) + (if log[i] == C then 1 else 0)
    ensures Seen(cue, log[..i + 1]) == Seen(cue, log[..i]) + (if log[i] in ObjectBalls(cue) then {log[i]} else {})
  {
    assert log[..i + 1][..i] == log[..i];
    assert log[..i + 1] == log[..i] + [log[i]];
  }

  lemma SeenMonotone(cue: Cue, log: seq<Symbol>, i: nat, j: nat)
    requires i <= j <= |log|
    ensures Seen(cue, log[..i]) <= Seen(cue, log[..j])
  {
    assert forall x :: x in log[..i] ==> x in log[..j] by {
      forall x | x in log[..i] ensures x in log[..j] {
        var k :| 0 <= k < i && log[..i][k] == x;
        assert log[..j][k] == x;
      }
    }
  }

  /** A set of object balls is empty, one ball, or both. */
  lemma ObjectSubsets(cue: Cue, s: set<Symbol>)
    requires s <= ObjectBalls(cue)
    ensures |s| <= 2
    ensures |s| == 0 <==> s == {}
    ensures |s| == 2 <==> s == ObjectBalls(cue)
  {
    var o := if cue == WhiteCue then Y else W;
    assert ObjectBalls(cue) == {R, o};
    if R in s && o in s {
      assert s == {R, o};
    } else if R in s {
      assert s == {R};
    } else if o in s {
      assert s == {o};
    } else {
      assert s == {};
    }
  }

  /** Adding a new object ball to a one-ball set completes the pair exactly when the set was the other ball. */
  lemma CompletingThePair(cue: Cue, hit: set<Symbol>, ch: Symbol)
    requires hit <= ObjectBalls(cue) && ch in ObjectBalls(cue) && ch !in hit
    ensures |hit + {ch}| == 2 <==> hit == ObjectBalls(cue) - {ch}
  {
    ObjectSubsets(cue, hit + {ch});
    ObjectSubsets(cue, hit);
  }

  /** The second object hit happens at most once. */
  lemma SecondObjectHitUnique(cue: Cue, log: seq<Symbol>, i: int, j: int)
    requires IsSecondObjectHit(cue, log, i) && IsSecondObjectHit(cue, log, j)
    ensures i == j
  {
    if i != j {
      var a, b := if i < j then i else j, if i < j then j else i;
      PrefixStep(cue, log, a);
      SeenMonotone(cue, log, a + 1, b);
      assert false;
    }
  }

  /** Once the second object ball has been hit, both object balls are seen in the whole log. */
  lemma SecondObjectHitSeesBoth(cue: Cue, log: seq<Symbol>, i: int)
    requires IsSecondObjectHit(cue, log, i)
    ensures Seen(cue, log) == ObjectBalls(cue)
  {
    PrefixStep(cue, log, i);
    SeenMonotone(cue, log, i + 1, |log|);
    assert log[..|log|] == log;
  }

  /** When both object balls occur, some position is the second object hit. */
  lemma {:induction false} BothSeenHasSecondObjectHit(cue: Cue, log: seq<Symbol>)
    requires Seen(cue, log) == ObjectBalls(cue)
    ensures exists i :: IsSecondObjectHit(cue, log, i)
  {
    var n := |log|;
    if n == 0 {
      assert false;
    } else {
      var prefix := log[..n - 1];
      assert log[..n] == log;
      PrefixStep(cue, log, n - 1);
      if Seen(cue, prefix) == ObjectBalls(cue) {
        BothSeenHasSecondObjectHit(cue, prefix);
        var i :| IsSecondObjectHit(cue, prefix, i);
        assert prefix[..i] == log[..i];
        assert IsSecondObjectHit(cue, log, i);
      } else {
        var ch := log[n - 1];
        assert ch in ObjectBalls(cue) && ch !in Seen(cue, prefix);
        CompletingThePair(cue, Seen(cue, prefix), ch);
        assert IsSecondObjectHit(cue, log, n - 1);
      }
    }
  }

  // ---------------------------------------------------------------------------
  // The scan computes the declarative verdict

  /** The verdict the rules call for, stated without the scan. */
  ghost function Expected(cue: Cue, log: seq<Symbol>): Verdict {
    if LegalShot(cue, log) then Verdict(true, Scored)
    else if ShortOfCushions(cue, log) then Verdict(false, CushionsShortAtSecondBall)
    else if Seen(cue, log) == {} then Verdict(false, NoObjectBall)
    else Verdict(false, OneObjectBall)
  }

  /** No earlier second object hit came short of cushions. */
  ghost predicate NoShortBefore(cue: Cue, log: seq<Symbol>, i: nat) {
    forall j :: 0 <= j < i && IsSecondObjectHit(cue, log, j) ==> Cushions(log[..j]) >= 3
  }

  ghost predicate ScanInv(cue: Cue, log: seq<Symbol>, i: nat, cushions: nat, hit: set<Symbol>, secondHit: bool) {
    && i <= |log|
    && cushions == Cushions(log[..i])
    && hit == Seen(cue, log[..i])
    && (secondHit <==> |hit| == 2)
    && NoShortBefore(cue, log, i)
  }

  lemma ScanEndMeetsRules(cue: Cue, log: seq<Symbol>, cushions: nat, hit: set<Symbol>, secondHit: bool)
    requires ScanInv(cue, log, |log|, cushions, hit, secondHit)
    ensures Scan(cue, log, |log|, cushions, hit, secondHit) == Expected(cue, log)
  {
    assert log[..|log|] == log;
    ObjectSubsets(cue, hit);
    if secondHit {
      BothSeenHasSecondObjectHit(cue, log);
      var j :| IsSecondObjectHit(cue, log, j);
      assert LegalShot(cue, log);
    } else {
      forall j | IsSecondObjectHit(cue, log, j) ensures false {
        SecondObjectHitSeesBoth(cue, log, j);
      }
      assert !LegalShot(cue, log) && !ShortOfCushions(cue, log);
    }
  }

  /** Neither a cushion, the cue's own symbol nor a repeated object ball is a second object hit. */
  lemma AdvanceOther(cue: Cue, log: seq<Symbol>, i: nat, cushions: nat, hit: set<Symbol>, secondHit: bool)
    requires ScanInv(cue, log, i, cushions, hit, secondHit) && i < |log|
    requires !(log[i] in ObjectBalls(cue) && log[i] !in hit)
    ensures ScanInv(cue, log, i + 1, if log[i] == C then cushions + 1 else cushions, hit, secondHit)
  {
    PrefixStep(cue, log, i);
    assert !IsSecondObjectHit(cue, log, i);
    assert Seen(cue, log[..i + 1]) == hit;
  }

  /** A new object ball, arriving with enough cushions if it completes the pair. */
  lemma AdvanceNewBall(cue: Cue, log: seq<Symbol>, i: nat, cushions: nat, hit: set<Symbol>, secondHit: bool)
    requires ScanInv(cue, log, i, cushions, hit, secondHit) && i < |log|
    requires log[i] in ObjectBalls(cue) && log[i] !in hit
    requires |hit + {log[i]}| == 2 ==> cushions >= 3
    ensures ScanInv(cue, log, i + 1, cushions, hit + {log[i]}, |hit + {log[i]}| == 2 || secondHit)
  {
    PrefixStep(cue, log, i);
    CompletingThePair(cue, hit, log[i]);
    ObjectSubsets(cue, hit);
  }

  /** A new object ball completing the pair with fewer than three cushions decides the verdict. */
  lemma ShortAt(cue: Cue, log: seq<Symbol>, i: nat, cushions: nat, hit: set<Symbol>, secondHit: bool)
    requires ScanInv(cue, log, i, cushions, hit, secondHit) && i < |log|
    requires log[i] in ObjectBalls(cue) && log[i] !in hit
    requires |hit + {log[i]}| == 2 && cushions < 3
    ensures Expected(cue, log) == Verdict(false, CushionsShortAtSecondBall)
  {
    CompletingThePair(cue, hit, log[i]);
    assert IsSecondObjectHit(cue, log, i);
    assert ShortOfCushions(cue, log);
    forall j | IsSecondObjectHit(cue, log, j) ensures Cushions(log[..j]) < 3 {
      SecondObjectHitUnique(cue, log, i, j);
    }
  }

  lemma {:induction false} ScanMeetsRules(cue: Cue, log: seq<Symbol>, i: nat, cushions: nat, hit: set<Symbol>, secondHit: bool)
    requires ScanInv(cue, log, i, cushions, hit, secondHit)
    ensures Scan(cue, log, i, cushions, hit, secondHit) == Expected(cue, log)
    decreases |log| - i
  {
    if i == |log| {
      ScanEndMeetsRules(cue, log, cushions, hit, secondHit);
    } else {
      var ch := log[i];
      if ch == C {
        AdvanceOther(cue, log, i, cushions, hit, secondHit);
        ScanMeetsRules(cue, log, i + 1, cushions + 1, hit, secondHit);
      } else if ch in ObjectBalls(cue) && ch !in hit {
        var hit' := hit + {ch};
        if |hit'| == 2 && cushions < 3 {
          ShortAt(cue, log, i, cushions, hit, secondHit);
        } else {
          AdvanceNewBall(cue, log, i, cushions, hit, secondHit);
          ScanMeetsRules(cue, log, i + 1, cushions, hit', |hit'| == 2 || secondHit);
        }
      } else {
        AdvanceOther(cue, log, i, cushions, hit, secondHit);
        ScanMeetsRules(cue, log, i + 1, cushions, hit, secondHit);
      }
    }
  }

  /** The verdict of `check_3cushion_score`, both directions: legal exactly when
      three cushions precede the second object ball's first hit; "short of
      cushions" exactly when that hit comes with fewer; otherwise the reason
      counts the object balls hit; the last fallback message is never returned. */
  lemma JudgeMeetsRules(cue: Cue, log: seq<Symbol>)
    ensures Judge(cue, log).legal <==> LegalShot(cue, log)
    ensures Judge(cue, log).legal <==> Judge(cue, log).reason == Scored
    ensures Judge(cue, log).reason == CushionsShortAtSecondBall <==> ShortOfCushions(cue, log)
    ensures Judge(cue, log).reason == NoObjectBall <==> Seen(cue, log) == {}
    ensures Judge(cue, log).reason == OneObjectBall <==> |Seen(cue, log)| == 1
    ensures Judge(cue, log).reason != UnderThreeCushions
  {
    assert log[..0] == [];
    ScanMeetsRules(cue, log, 0, 0, {}, false);
    ObjectSubsets(cue, Seen(cue, log));
    if LegalShot(cue, log) {
      var i :| IsSecondObjectHit(cue, log, i) && Cushions(log[..i]) >= 3;
      SecondObjectHitSeesBoth(cue, log, i);
      forall j | IsSecondObjectHit(cue, log, j) ensures Cushions(log[..j]) >= 3 {
        SecondObjectHitUnique(cue, log, i, j);
      }
    } else if ShortOfCushions(cue, log) {
      var i :| IsSecondObjectHit(cue, log, i);
      SecondObjectHitSeesBoth(cue, log, i);
    } else {
      NeitherMeansNotBoth(cue, log);
    }
  }

  lemma NeitherMeansNotBoth(cue: Cue, log: seq<Symbol>)
    requires !LegalShot(cue, log) && !ShortOfCushions(cue, log)
    ensures Seen(cue, log) != ObjectBalls(cue)
  {
    if Seen(cue, log) == ObjectBalls(cue) {
      BothSeenHasSecondObjectHit(cue, log);
      assert false;
    }
  }

  lemma {:induction false} CushionsBound(s: seq<Symbol>)
    ensures Cushions(s) <= |s|
    ensures (exists k :: 0 <= k < |s| && s[k] != C) ==> Cushions(s) < |s|
  {
    if |s| > 0 {
      var p := s[..|s| - 1];
      CushionsBound(p);
      if exists k :: 0 <= k < |s| && s[k] != C {
        var k :| 0 <= k < |s| && s[k] != C;
        if k < |s| - 1 {
          assert p[k] != C;
        }
      }
    }
  }

  /** A legal log has at least three cushions and both object balls, so it has
      at least five symbols and a first symbol. */
  lemma LegalLogShape(cue: Cue, log: seq<Symbol>)
    requires Judge(cue, log).legal
    ensures |log| >= 5
    ensures Cushions(log) >= 3
    ensures Seen(cue, log) == ObjectBalls(cue)
  {
    JudgeMeetsRules(cue, log);
    var i :| IsSecondObjectHit(cue, log, i) && Cushions(log[..i]) >= 3;
    SecondObjectHitSeesBoth(cue, log, i);
    var other :| other in ObjectBalls(cue) - {log[i]};
    assert other in Seen(cue, log[..i]);
    var k :| 0 <= k < i && log[..i][k] == other;
    CushionsBound(log[..i]);
    assert log[..i][k] != C;
    CushionsMonotone(log, i);
  }

  lemma {:induction false} CushionsMonotone(log: seq<Symbol>, i: nat)
    requires i <= |log|
    ensures Cushions(log[..i]) <= Cushions(log)
    decreases |log| - i
  {
    if i < |log| {
      PrefixStep(WhiteCue, log, i);
      CushionsMonotone(log, i + 1);
    } else {
      assert log[..i] == log;
    }
  }

  /** Once both object balls are in `hit` and the flag is set, the rest of the
      scan cannot change the verdict: this is why the `break` is harmless. */
  lemma {:induction false} ScanAfterSecondHit(cue: Cue, log: seq<Symbol>, i: nat, cushions: nat)
    requires i <= |log|
    ensures Scan(cue, log, i, cushions, ObjectBalls(cue), true) == Verdict(true, Scored)
    decreases |log| - i
  {
    if i < |log| {
      if log[i] == C {
        ScanAfterSecondHit(cue, log, i + 1, cushions + 1);
      } else {
        ScanAfterSecondHit(cue, log, i + 1, cushions);
      }
    }
  }

  /** The server copy's loop, which breaks out once the second object ball has
      been validly hit; it reaches the same verdict as the v1 scan. */
  method JudgeWithBreak(cue: Cue, log: seq<Symbol>) returns (v: Verdict)
    ensures v == Judge(cue, log)
  {
    var obj := ObjectBalls(cue);
    var cushions: nat := 0;
    var hit: set<Symbol> := {};
    var secondHit := false;
    var i := 0;
    while i < |log|
      invariant i <= |log|
      invariant hit <= obj
      invariant secondHit ==> hit == obj
      invariant Scan(cue, log, i, cushions, hit, secondHit) == Judge(cue, log)
    {
      var ch := log[i];
      if ch == C {
        cushions := cushions + 1;
      } else if ch in obj && ch !in hit {
        hit := hit + {ch};
        if |hit| == 2 {
          if cushions >= 3 {
            secondHit := true;
            ObjectSubsets(cue, hit);
          } else {
            return Verdict(false, CushionsShortAtSecondBall);
          }
        }
      }
      i := i + 1;
      if secondHit {
        ScanAfterSecondHit(cue, log, i, cushions);
        break;
      }
    }
    if secondHit {
      v := Verdict(true, Scored);
    } else if |hit| == 0 {
      v := Verdict(false, NoObjectBall);
    } else if |hit| == 1 {
      v := Verdict(false, OneObjectBall);
    } else {
      v := Verdict(false, UnderThreeCushions);
    }
  }

  /** Scenario: white cue, three cushions, then red, then yellow: legal. */
  lemma ThreeCushionsThenBothBalls()
    ensures Judge(WhiteCue, [C, C, C, R, Y]) == Verdict(true, Scored)
  {
    var log := [C, C, C, R, Y];
    assert IsSecondObjectHit(WhiteCue, log, 4) by {
      assert log[..4] == [C, C, C, R];
      assert Seen(WhiteCue, log[..4]) == {R};
    }
    assert Cushions(log[..4]) == 3 by {
      assert log[..4] == [C, C, C, R];
      assert [C, C, C, R][..3] == [C, C, C];
      assert [C, C, C][..2] == [C, C];
      assert [C, C][..1] == [C];
      assert [C][..0] == [];
    }
    JudgeMeetsRules(WhiteCue, log);
  }

  /** Scenario: white cue, red then yellow with no cushion: short of cushions. */
  lemma BothBallsWithoutCushions()
    ensures Judge(WhiteCue, [R, Y]) == Verdict(false, CushionsShortAtSecondBall)
  {
    var log := [R, Y];
    assert IsSecondObjectHit(WhiteCue, log, 1) by {
      assert log[..1] == [R];
      assert Seen(WhiteCue, log[..1]) == {R};
    }
    assert Cushions(log[..1]) == 0 by {
      assert log[..1] == [R];
      assert [R][..0] == [];
    }
    JudgeMeetsRules(WhiteCue, log);
  }
}
