/** The vocabulary shared by both simulator copies: the cue-relative collision
    symbols, the cue-ball choice, and the pymunk collision-type numbers the
    simulator gives the table's shapes (qfit/model_src/qfit_simulation_v1.py
    lines 199-213 and 315-335; server/pymunk_sim6.py is identical). */
module Carom {

  /** A cushion (`C`), the red ball (`R`), the white ball (`W`), the yellow ball (`Y`). */
  datatype Symbol = C | R | W | Y

  /** `cue_choice`: "white" selects the white ball, anything else the yellow one. */
  datatype Cue = WhiteCue | YellowCue

  const WhiteType: int := 1
  const YellowType: int := 2
  const RedType: int := 3
  const UnknownBallType: int := 10
  const CushionType: int := 99

  /** `cue_ctype`. */
  function CueType(cue: Cue): int {
    if cue == WhiteCue then WhiteType else YellowType
  }

  /** The dictionary key of the cue ball in the ball-position mapping. */
  function CueColour(cue: Cue): string {
    if cue == WhiteCue then "white" else "yellow"
  }

  /** The collision type given to the ball shape of each colour name. */
  function BallType(colour: string): int {
    if colour == "white" then WhiteType
    else if colour == "yellow" then YellowType
    else if colour == "red" then RedType
    else UnknownBallType
  }

  /** The collision type of the shape a symbol stands for. */
  function TypeOf(s: Symbol): int {
    match s
    case C => CushionType
    case R => RedType
    case W => WhiteType
    case Y => YellowType
  }

  /** The symbol of the cue ball itself, which a contact can never produce. */
  function OwnSymbol(cue: Cue): Symbol {
    if cue == WhiteCue then W else Y
  }

  /** The two object balls: red and the ball that is not the cue. */
  function ObjectBalls(cue: Cue): (obj: set<Symbol>)
    ensures |obj| == 2 && R in obj && C !in obj && OwnSymbol(cue) !in obj
  {
    if cue == WhiteCue then {R, Y} else {R, W}
  }
}
