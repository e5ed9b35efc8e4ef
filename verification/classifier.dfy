/** The collision classifier (`collision_logger` in both simulator copies):
    the per-trial state the source keeps in module globals (`collision_log`,
    `last_collision_type`, `last_collision_frame`) is an explicit record here,
    and every contact the physics engine reports is one `Contact` carrying the
    frame counter at the time it was reported. */
module Classifier {
  import opened Wrappers
  import opened Carom

  /** One post-solve notification: the frame counter and the collision types of both shapes. */
  datatype Contact = Contact(frame: int, typeA: int, typeB: int)

  /** One appended log entry, with the frame that produced it. */
  datatype Emission = Emission(frame: int, symbol: Symbol)

  datatype State = State(log: seq<Emission>, lastType: Option<Symbol>, lastFrame: int)

  /** The reset `simulate_shot` performs before every trial. */
  const Initial: State := State([], None, -999)

  /** A cushion within this many frames of a previously emitted cushion is dropped. */
  const DebounceWindow: int := 3

  /** The symbol for the shape that met the cue ball. */
  function SymbolFor(cue: Cue, other: int): Option<Symbol> {
    if other == CushionType then Some(C)
    else if other == RedType then Some(R)
    else if other == WhiteType && CueType(cue) != WhiteType then Some(W)
    else if other == YellowType && CueType(cue) != YellowType then Some(Y)
    else None
  }

  /** The symbol a contact yields, if any: the cue ball must be one side (A is
      tried first) and the other side is read through `TypeOf`'s inverse. */
  function Resolve(cue: Cue, c: Contact): (r: Option<Symbol>)
    ensures c.typeA != CueType(cue) && c.typeB != CueType(cue) ==> r.None?
    ensures r.Some? ==> r.value != OwnSymbol(cue)
    ensures r.Some? ==>
      || (c.typeA == CueType(cue) && c.typeB == TypeOf(r.value))
      || (c.typeA != CueType(cue) && c.typeB == CueType(cue) && c.typeA == TypeOf(r.value))
    ensures forall s: Symbol :: s != OwnSymbol(cue) && c.typeA == CueType(cue) && c.typeB == TypeOf(s) ==> r == Some(s)
    ensures forall s: Symbol :: s != OwnSymbol(cue) && c.typeA != CueType(cue) && c.typeB == CueType(cue) && c.typeA == TypeOf(s) ==> r == Some(s)
  {
    if c.typeA == CueType(cue) then SymbolFor(cue, c.typeB)
    else if c.typeB == CueType(cue) then SymbolFor(cue, c.typeA)
    else None
  }

  predicate Suppressed(st: State, s: Symbol, frame: int) {
    s == C && st.lastType == Some(C) && frame - st.lastFrame < DebounceWindow
  }

  /** One call of the collision callback: it appends at most one entry and
      never rewrites the log. */
  function Step(cue: Cue, st: State, c: Contact): (r: State)
    ensures st.log <= r.log && |r.log| <= |st.log| + 1
  {
    match Resolve(cue, c)
    case None => st
    case Some(s) =>
      if Suppressed(st, s, c.frame) then st
      else State(st.log + [Emission(c.frame, s)], Some(s), c.frame)
  }

  /** The state after the callback has seen every contact of a trial, in order:
      at most one entry per contact. */
  function Classify(cue: Cue, events: seq<Contact>): (r: State)
    ensures |r.log| <= |events|
  {
    if |events| == 0 then Initial
    else Step(cue, Classify(cue, events[..|events| - 1]), events[|events| - 1])
  }

  function Symbols(log: seq<Emission>): (r: seq<Symbol>)
    ensures |r| == |log|
    ensures forall i :: 0 <= i < |log| ==> r[i] == log[i].symbol
  {
    seq(|log|, i requires 0 <= i < |log| => log[i].symbol)
  }

  /** `collision_log` at the end of a trial. */
  function CollisionLog(cue: Cue, events: seq<Contact>): seq<Symbol> {
    Symbols(Classify(cue, events).log)
  }

  /** The bookkeeping fields always describe the last emitted entry. */
  predicate Consistent(st: State) {
    if |st.log| == 0 then st.lastType == None
    else st.lastType == Some(st.log[|st.log| - 1].symbol) && st.lastFrame == st.log[|st.log| - 1].frame
  }

  /** Two log-adjacent cushions are at least the debounce window apart. */
  predicate Debounced(log: seq<Emission>) {
    forall i :: 0 <= i < |log| - 1 && log[i].symbol == C && log[i + 1].symbol == C ==>
      log[i + 1].frame - log[i].frame >= DebounceWindow
  }

  /** With consistent bookkeeping, a resolved symbol is dropped exactly when it
      is a cushion, the last emitted entry is a cushion, and fewer than three
      frames separate them; otherwise it is appended with its frame. */
  lemma StepDropsOnlyDebouncedCushions(cue: Cue, st: State, c: Contact)
    requires Consistent(st)
    requires Resolve(cue, c).Some?
    ensures var s := Resolve(cue, c).value;
      var dropped := s == C && |st.log| > 0 && st.log[|st.log| - 1].symbol == C
                     && c.frame - st.log[|st.log| - 1].frame < DebounceWindow;
      && (dropped ==> Step(cue, st, c) == st)
      && (!dropped ==> Step(cue, st, c).log == st.log + [Emission(c.frame, s)])
  {
  }

  lemma {:induction false} ClassifyInvariant(cue: Cue, events: seq<Contact>)
    ensures Consistent(Classify(cue, events))
    ensures Debounced(Classify(cue, events).log)
  {
    if |events| > 0 {
      var prefix := events[..|events| - 1];
      ClassifyInvariant(cue, prefix);
    }
  }

  /** The cue ball's own symbol never enters the log. */
  lemma {:induction false} CollisionLogAvoidsCue(cue: Cue, events: seq<Contact>)
    ensures forall i :: 0 <= i < |Classify(cue, events).log| ==> Classify(cue, events).log[i].symbol != OwnSymbol(cue)
  {
    if |events| > 0 {
      CollisionLogAvoidsCue(cue, events[..|events| - 1]);
    }
  }

  /** Python's `[x for x in s if x != "C"]`. */
  function NonCushions(s: seq<Symbol>): seq<Symbol> {
    if |s| == 0 then []
    else NonCushions(s[..|s| - 1]) + (if s[|s| - 1] == C then [] else [s[|s| - 1]])
  }

  /** The symbols one contact resolves to: none or one. */
  function Emitted(r: Option<Symbol>): seq<Symbol> {
    match r
    case None => []
    case Some(s) => [s]
  }

  /** Every symbol the contacts resolve to, before debouncing. */
  function Resolved(cue: Cue, events: seq<Contact>): seq<Symbol> {
    if |events| == 0 then []
    else Resolved(cue, events[..|events| - 1]) + Emitted(Resolve(cue, events[|events| - 1]))
  }

  lemma NonCushionsAppend(a: seq<Symbol>, b: seq<Symbol>)
    requires |b| <= 1
    ensures NonCushions(a + b) == NonCushions(a) + NonCushions(b)
  {
    if |b| == 1 {
      assert (a + b)[..|a + b| - 1] == a;
      assert b[..0] == [];
    } else {
      assert a + b == a;
    }
  }

  /** One callback keeps the ball symbols of the log in step with the
      resolved contacts, and adds at most what the contact resolved to. */
  lemma StepBalls(cue: Cue, st: State, c: Contact)
    ensures var after := Symbols(Step(cue, st, c).log);
      && NonCushions(after) == NonCushions(Symbols(st.log)) + NonCushions(Emitted(Resolve(cue, c)))
      && |after| <= |st.log| + |Emitted(Resolve(cue, c))|
  {
    var before := Symbols(st.log);
    match Resolve(cue, c)
    case None =>
      assert NonCushions([]) == [];
    case Some(s) =>
      assert NonCushions([s]) == NonCushions([s][..0]) + (if s == C then [] else [s]);
      if !Suppressed(st, s, c.frame) {
        var after := Symbols(st.log + [Emission(c.frame, s)]);
        assert after == before + [s];
        NonCushionsAppend(before, [s]);
      }
  }

  /** The debounce filter only ever drops cushions: the ball symbols of the log
      are exactly those of the contacts, in order, and the log is no longer than
      the resolved contacts. */
  lemma {:induction false} ClassifyDropsOnlyCushions(cue: Cue, events: seq<Contact>)
    ensures NonCushions(CollisionLog(cue, events)) == NonCushions(Resolved(cue, events))
    ensures |CollisionLog(cue, events)| <= |Resolved(cue, events)|
  {
    if |events| > 0 {
      var prefix, last := events[..|events| - 1], events[|events| - 1];
      ClassifyDropsOnlyCushions(cue, prefix);
      assert Classify(cue, events) == Step(cue, Classify(cue, prefix), last);
      StepBalls(cue, Classify(cue, prefix), last);
      NonCushionsAppend(Resolved(cue, prefix), Emitted(Resolve(cue, last)));
    }
  }

  /** Four grazes of one cushion at frames 10-13 under a yellow cue: the
      window is measured from the last emitted cushion (frame 10), so frames
      11 and 12 are dropped and frame 13 is logged again. */
  lemma RapidCushionGrazes()
    ensures CollisionLog(YellowCue, [Contact(10, 2, 99), Contact(11, 2, 99), Contact(12, 99, 2), Contact(13, 2, 99)]) == [C, C]
  {
    var e := [Contact(10, 2, 99), Contact(11, 2, 99), Contact(12, 99, 2), Contact(13, 2, 99)];
    var s1 := State([Emission(10, C)], Some(C), 10);
    assert e[..1][..0] == [];
    assert Classify(YellowCue, e[..1]) == Step(YellowCue, Initial, e[0]) == s1;
    assert e[..2][..1] == e[..1];
    assert Classify(YellowCue, e[..2]) == Step(YellowCue, s1, e[1]) == s1;
    assert e[..3][..2] == e[..2];
    assert Classify(YellowCue, e[..3]) == Step(YellowCue, s1, e[2]) == s1;
    assert e[..|e| - 1] == e[..3];
    assert Classify(YellowCue, e) == Step(YellowCue, s1, e[3]);
    assert Classify(YellowCue, e).log == [Emission(10, C), Emission(13, C)];
  }
}
