/** The ball-label file: one line `"{color} {cx} {cy}\n"` per detected ball,
    written by both topview scripts and read back by `load_ball_position` /
    `load_ball_positions` in the simulators. */
module Labels {
  import opened Wrappers
  import opened Text
  import opened OrderedDict

  /** Colour name to integer centre, in detection order. */
  type Positions = Dict<string, (int, int)>

  predicate IsLineBreak(c: char) {
    c == '\n' || c == '\r'
  }

  predicate NoLineBreak(s: string) {
    forall i :: 0 <= i < |s| ==> !IsLineBreak(s[i])
  }

  /** The length of the text before the first line break. */
  function LineLength(s: string): (n: nat)
    ensures n <= |s|
    ensures NoLineBreak(s[..n])
    ensures n < |s| ==> IsLineBreak(s[n])
  {
    if |s| == 0 || IsLineBreak(s[0]) then 0
    else
      var n := 1 + LineLength(s[1..]);
      assert s[..n] == [s[0]] + s[1..][..n - 1];
      n
  }

  /** Iterating over a text file: the lines without their terminators. A
      "\r\n" pair yields one extra empty line, which the parser skips. */
  function Lines(s: string): seq<string>
    decreases |s|
  {
    if |s| == 0 then []
    else
      var n := LineLength(s);
      [s[..n]] + (if n < |s| then Lines(s[n + 1..]) else [])
  }

  /** The length of the leading run of non-whitespace characters. */
  function WordLength(s: string): (n: nat)
    ensures n <= |s|
    ensures NoSpace(s[..n])
    ensures n < |s| ==> IsSpace(s[n])
  {
    if |s| == 0 || IsSpace(s[0]) then 0
    else
      var n := 1 + WordLength(s[1..]);
      assert s[..n] == [s[0]] + s[1..][..n - 1];
      n
  }

  /** Python's `str.split()` without a separator (so `line.strip().split()` too):
      the maximal runs of non-whitespace characters. */
  function Tokens(s: string): (ts: seq<string>)
    ensures forall k :: 0 <= k < |ts| ==> |ts[k]| > 0 && NoSpace(ts[k])
    decreases |s|
  {
    if |s| == 0 then []
    else if IsSpace(s[0]) then Tokens(s[1..])
    else
      var n := WordLength(s);
      [s[..n]] + Tokens(s[n..])
  }

  /** One line of the file: fewer than three tokens skip it; otherwise the
      second and third tokens must be integers, else parsing stops. */
  datatype LineResult = Skip | Entry(color: string, x: int, y: int) | Stop

  function ReadLine(line: string): LineResult {
    var parts := Tokens(line);
    if |parts| >= 3 then
      match (ParseInt(parts[1]), ParseInt(parts[2]))
      case (Some(x), Some(y)) => Entry(parts[0], x, y)
      case _ => Stop
    else Skip
  }

  /** The loop of `load_ball_position` over the lines' outcomes: entries are
      assigned into the mapping in order; a ValueError leaves the mapping as it
      was and ends the loop. */
  function Apply(rs: seq<LineResult>, acc: Positions): Positions
    requires DistinctKeys(acc)
    decreases |rs|
  {
    if |rs| == 0 then acc
    else
      match rs[0]
      case Skip => Apply(rs[1..], acc)
      case Stop => acc
      case Entry(c, x, y) => Apply(rs[1..], Put(acc, c, (x, y)))
  }

  function ReadAll(lines: seq<string>): (rs: seq<LineResult>)
    ensures |rs| == |lines|
    ensures forall i :: 0 <= i < |lines| ==> rs[i] == ReadLine(lines[i])
  {
    seq(|lines|, i requires 0 <= i < |lines| => ReadLine(lines[i]))
  }

  /** `load_ball_position(path)`: None stands for a missing file (FileNotFoundError). */
  function LoadBallPosition(file: Option<string>): (r: Positions)
    ensures file.None? ==> r == []
    ensures DistinctKeys(r)
  {
    match file
    case None => []
    case Some(text) =>
      var rs := ReadAll(Lines(text));
      ApplyDistinct(rs, []);
      Apply(rs, [])
  }

  /** The reader always yields a mapping with distinct keys. */
  lemma {:induction false} ApplyDistinct(rs: seq<LineResult>, acc: Positions)
    requires DistinctKeys(acc)
    ensures DistinctKeys(Apply(rs, acc))
    decreases |rs|
  {
    if |rs| > 0 {
      match rs[0]
      case Skip => ApplyDistinct(rs[1..], acc);
      case Stop =>
      case Entry(c, x, y) => ApplyDistinct(rs[1..], Put(acc, c, (x, y)));
    }
  }

  /** A line whose integers fail to parse ends reading: everything after it is
      ignored, and the result is what the lines before it gave. */
  lemma {:induction false} StopDiscardsTheRest(rs: seq<LineResult>, acc: Positions, k: nat)
    requires DistinctKeys(acc)
    requires k < |rs| && rs[k] == Stop
    ensures Apply(rs, acc) == Apply(rs[..k], acc)
    decreases k
  {
    if k > 0 {
      assert rs[..k][0] == rs[0];
      assert rs[..k][1..] == rs[1..][..k - 1];
      match rs[0]
      case Skip => StopDiscardsTheRest(rs[1..], acc, k - 1);
      case Stop =>
      case Entry(c, x, y) => StopDiscardsTheRest(rs[1..], Put(acc, c, (x, y)), k - 1);
    } else {
      assert rs[..0] == [];
    }
  }

  /** A key read twice keeps its first position and takes the later value; a
      short line in between is skipped. */
  lemma DuplicateKeyOverwrites()
    ensures Apply([Entry("red", 1, 2), Skip, Entry("red", 5, 6)], []) == [("red", (5, 6))]
  {
    var rs := [Entry("red", 1, 2), Skip, Entry("red", 5, 6)];
    assert rs[1..] == [Skip, Entry("red", 5, 6)];
    assert rs[1..][1..] == [Entry("red", 5, 6)];
    assert rs[1..][1..][1..] == [];
  }

  /** A line with a non-integer coordinate stops the reader; a two-token line is skipped. */
  lemma LineOutcomes()
    ensures ReadLine("red x 3") == Stop
    ensures ReadLine("white 3") == Skip
  {
    BadNumberStops();
    ShortLineSkipped();
  }

  lemma BadNumberStops()
    ensures ReadLine("red x 3") == Stop
  {
    assert Tokens("red x 3") == ["red", "x", "3"] by {
      assert "red x 3" == "red" + " " + "x" + " " + "3";
      TokensOfThree("red", "x", "3");
    }
    assert ParseInt("x") == None by {
      assert !ValidDigitGroup("x");
    }
  }

  lemma LettersAreNoSpace(w: string)
    requires forall i :: 0 <= i < |w| ==> 'a' <= w[i] <= 'z'
    ensures NoSpace(w)
  {
  }

  lemma ShortLineSkipped()
    ensures ReadLine("white 3") == Skip
  {
    LettersAreNoSpace("white");
    DigitsNoSpace("3");
    TwoTokensSkipped("white", "3");
    assert "white" + " " + "3" == "white 3";
  }

  /** A line of two words has too few tokens and is skipped. */
  lemma TwoTokensSkipped(a: string, b: string)
    requires |a| > 0 && NoSpace(a) && |b| > 0 && NoSpace(b)
    ensures ReadLine(a + " " + b) == Skip
  {
    TokensOfWord(b);
    TokensAfterWord(a, b);
  }

  lemma ReadOne(color: string, x: int, y: int)
    requires |color| > 0 && NoSpace(color)
    ensures ReadLine(LabelLine(color, x, y)) == Entry(color, x, y)
  {
    LabelLineTokens(color, x, y);
    IntToStringRoundTrip(x);
    IntToStringRoundTrip(y);
  }

  // ---------------------------------------------------------------------------
  // The writer

  /** The body of one label line, `f"{color} {cx} {cy}"`. */
  function LabelLine(color: string, x: int, y: int): string {
    color + " " + IntToString(x) + " " + IntToString(y)
  }

  /** The label file: each entry's line followed by "\n", in mapping order. */
  function WriteLabels(d: Positions): (r: string)
    ensures r == "" <==> |d| == 0
    ensures |d| > 0 ==> r[|r| - 1] == '\n'
  {
    if |d| == 0 then ""
    else LabelLine(d[0].0, d[0].1.0, d[0].1.1) + "\n" + WriteLabels(d[1..])
  }

  /** Colour names the reader can recover: non-empty and free of whitespace. */
  predicate ReadableColor(c: string) {
    |c| > 0 && NoSpace(c)
  }

  lemma {:induction false} TokensOfWord(w: string)
    requires |w| > 0 && NoSpace(w)
    ensures Tokens(w) == [w]
  {
    var n := WordLength(w);
    if n < |w| {
      assert false;
    }
    assert w[..n] == w;
    assert w[n..] == [];
  }

  lemma TokensAfterWord(w: string, rest: string)
    requires |w| > 0 && NoSpace(w)
    ensures Tokens(w + " " + rest) == [w] + Tokens(rest)
  {
    var t := " " + rest;
    var s := w + t;
    assert s == w + " " + rest;
    assert !IsSpace(s[0]) by { assert s[0] == w[0]; }
    WordLengthOfWord(w, t);
    assert Tokens(s) == [s[..|w|]] + Tokens(s[|w|..]);
    assert s[..|w|] == w;
    assert s[|w|..] == t;
    SpaceThenTokens(rest);
  }

  lemma SpaceThenTokens(rest: string)
    ensures Tokens(" " + rest) == Tokens(rest)
  {
    var t := " " + rest;
    assert IsSpace(t[0]);
    assert t[1..] == rest;
  }

  lemma {:induction false} WordLengthOfWord(w: string, tail: string)
    requires NoSpace(w) && |tail| > 0 && IsSpace(tail[0])
    ensures WordLength(w + tail) == |w|
  {
    if |w| > 0 {
      var s := w + tail;
      assert s[1..] == w[1..] + tail;
      WordLengthOfWord(w[1..], tail);
    } else {
      assert w + tail == tail;
    }
  }

  /** A label line splits back into the colour and the two numbers' text. */
  lemma LabelLineTokens(color: string, x: int, y: int)
    requires ReadableColor(color)
    ensures Tokens(LabelLine(color, x, y)) == [color, IntToString(x), IntToString(y)]
  {
    IntToStringRoundTrip(x);
    IntToStringRoundTrip(y);
    TokensOfThree(color, IntToString(x), IntToString(y));
  }

  lemma TokensOfThree(a: string, b: string, c: string)
    requires |a| > 0 && NoSpace(a) && |b| > 0 && NoSpace(b) && |c| > 0 && NoSpace(c)
    ensures Tokens(a + " " + b + " " + c) == [a, b, c]
  {
    TokensOfWord(c);
    TokensAfterWord(b, c);
    assert a + " " + b + " " + c == a + " " + (b + " " + c);
    TokensAfterWord(a, b + " " + c);
  }

  lemma LabelLineHasNoBreak(color: string, x: int, y: int)
    requires ReadableColor(color)
    ensures NoLineBreak(LabelLine(color, x, y))
  {
    var sx, sy := IntToString(x), IntToString(y);
    IntToStringRoundTrip(x);
    IntToStringRoundTrip(y);
    SpaceFreeHasNoBreak(color);
    SpaceFreeHasNoBreak(sx);
    SpaceFreeHasNoBreak(sy);
    ConcatNoBreak(color, " ");
    ConcatNoBreak(color + " ", sx);
    ConcatNoBreak(color + " " + sx, " ");
    ConcatNoBreak(color + " " + sx + " ", sy);
  }

  lemma SpaceFreeHasNoBreak(s: string)
    requires NoSpace(s)
    ensures NoLineBreak(s)
  {
    forall i | 0 <= i < |s| ensures !IsLineBreak(s[i]) {
      assert !IsSpace(s[i]);
    }
  }

  lemma ConcatNoBreak(a: string, b: string)
    requires NoLineBreak(a) && NoLineBreak(b)
    ensures NoLineBreak(a + b)
  {
    forall i | 0 <= i < |a + b| ensures !IsLineBreak((a + b)[i]) {
      if i < |a| {
        assert (a + b)[i] == a[i];
      } else {
        assert (a + b)[i] == b[i - |a|];
      }
    }
  }

  lemma LinesAfterLine(line: string, rest: string)
    requires NoLineBreak(line)
    ensures Lines(line + "\n" + rest) == [line] + Lines(rest)
  {
    var t := "\n" + rest;
    var s := line + t;
    assert s == line + "\n" + rest;
    LineLengthOfLine(line, t);
    assert |line| < |s|;
    assert Lines(s) == [s[..|line|]] + Lines(s[|line| + 1..]);
    assert s[..|line|] == line;
    assert s[|line| + 1..] == rest;
  }

  lemma {:induction false} LineLengthOfLine(line: string, tail: string)
    requires NoLineBreak(line) && |tail| > 0 && IsLineBreak(tail[0])
    ensures LineLength(line + tail) == |line|
  {
    if |line| > 0 {
      var s := line + tail;
      assert s[1..] == line[1..] + tail;
      LineLengthOfLine(line[1..], tail);
    } else {
      assert line + tail == tail;
    }
  }

  /** The line bodies the writer produces for `d`, one per entry. */
  function WrittenLines(d: Positions): (ls: seq<string>)
    ensures |ls| == |d|
  {
    if |d| == 0 then [] else [LabelLine(d[0].0, d[0].1.0, d[0].1.1)] + WrittenLines(d[1..])
  }

  /** Splitting the written file into lines gives back the line bodies. */
  lemma {:induction false} LinesOfWritten(d: Positions)
    requires forall k :: 0 <= k < |d| ==> ReadableColor(d[k].0)
    ensures Lines(WriteLabels(d)) == WrittenLines(d)
  {
    if |d| > 0 {
      var (c, p) := d[0];
      assert forall k :: 0 <= k < |d[1..]| ==> d[1..][k] == d[k + 1];
      LinesOfWritten(d[1..]);
      LabelLineHasNoBreak(c, p.0, p.1);
      LinesAfterLine(LabelLine(c, p.0, p.1), WriteLabels(d[1..]));
    }
  }

  /** Every written line reads back as the entry it was written from. */
  lemma ReadWrittenLines(d: Positions)
    requires forall k :: 0 <= k < |d| ==> ReadableColor(d[k].0)
    ensures ReadAll(WrittenLines(d)) == Entries(d)
  {
    var rs, es := ReadAll(WrittenLines(d)), Entries(d);
    forall k | 0 <= k < |d| ensures rs[k] == es[k] {
      ReadWrittenLineAt(d, k);
    }
    assert rs == es;
  }

  lemma ReadWrittenLineAt(d: Positions, k: nat)
    requires k < |d| && ReadableColor(d[k].0)
    ensures ReadLine(WrittenLines(d)[k]) == Entry(d[k].0, d[k].1.0, d[k].1.1)
  {
    WrittenLineAt(d, k);
    ReadOne(d[k].0, d[k].1.0, d[k].1.1);
  }

  lemma {:induction false} WrittenLineAt(d: Positions, k: nat)
    requires k < |d|
    ensures WrittenLines(d)[k] == LabelLine(d[k].0, d[k].1.0, d[k].1.1)
  {
    var first := LabelLine(d[0].0, d[0].1.0, d[0].1.1);
    assert WrittenLines(d) == [first] + WrittenLines(d[1..]);
    if k > 0 {
      WrittenLineAt(d[1..], k - 1);
      assert d[1..][k - 1] == d[k];
    }
  }

  function Entries(d: Positions): (rs: seq<LineResult>)
    ensures |rs| == |d|
  {
    seq(|d|, k requires 0 <= k < |d| => Entry(d[k].0, d[k].1.0, d[k].1.1))
  }

  /** Applying the entries of `d` appends them, in order, to the mapping read so far. */
  lemma {:induction false} ApplyEntries(d: Positions, acc: Positions)
    requires NewKeys(acc, d)
    ensures Apply(Entries(d), acc) == acc + d
  {
    if |d| == 0 {
      assert acc + d == acc;
    } else {
      ApplyFirstEntry(d, acc);
      ApplyEntries(d[1..], acc + [d[0]]);
      MoveFirst(acc, d);
    }
  }

  lemma MoveFirst<T>(a: seq<T>, d: seq<T>)
    requires |d| > 0
    ensures a + [d[0]] + d[1..] == a + d
  {
    assert d == [d[0]] + d[1..];
  }

  /** Both mappings have distinct keys and `d` has none that `acc` has. */
  predicate NewKeys(acc: Positions, d: Positions) {
    && DistinctKeys(acc) && DistinctKeys(d)
    && forall k :: 0 <= k < |d| ==> d[k].0 !in Keys(acc)
  }

  /** The first entry of `d` is appended, and the rest of `d` still has keys
      new to the grown mapping. */
  lemma ApplyFirstEntry(d: Positions, acc: Positions)
    requires NewKeys(acc, d) && |d| > 0
    ensures NewKeys(acc + [d[0]], d[1..])
    ensures Apply(Entries(d), acc) == Apply(Entries(d[1..]), acc + [d[0]])
  {
    var (c, p) := d[0];
    var rest := d[1..];
    var acc' := acc + [(c, p)];
    assert d[0].0 !in Keys(acc);
    PutNewKey(acc, c, p);
    assert Entries(d)[1..] == Entries(rest);
    forall i, j | 0 <= i < j < |rest| ensures rest[i].0 != rest[j].0 {
      assert rest[i] == d[i + 1] && rest[j] == d[j + 1];
    }
    forall k | 0 <= k < |rest| ensures rest[k].0 !in Keys(acc') {
      assert rest[k] == d[k + 1];
      assert Keys(acc') == Keys(acc) + [c];
    }
  }

  /** The label file round trip: a mapping with distinct, whitespace-free colour
      names is read back exactly, in the same order. */
  lemma LabelRoundTrip(d: Positions)
    requires DistinctKeys(d)
    requires forall k :: 0 <= k < |d| ==> ReadableColor(d[k].0)
    ensures LoadBallPosition(Some(WriteLabels(d))) == d
  {
    var text := WriteLabels(d);
    assert Lines(text) == WrittenLines(d) by {
      LinesOfWritten(d);
    }
    assert ReadAll(WrittenLines(d)) == Entries(d) by {
      ReadWrittenLines(d);
    }
    assert Apply(Entries(d), []) == d by {
      ApplyEntries(d, []);
      assert [] + d == d;
    }
  }
}
