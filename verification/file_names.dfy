/** The file-name handling of the upload service: the rename that prefixes a
    moved file with the request time and index, the extension filter of the
    result-folder move, and `parse_file_info`, the regular expression
    `(\d{14})_(\d+)_(.*?)\.(\w+)` applied with `re.match` (anchored at the
    start only), which recovers the four parts of a renamed file. */
module FileNames {
  import opened Wrappers
  import opened Text
  import Selection

  // Paths

  /** `b` is the part of `path` after its last '/': a suffix without '/',
      preceded by a '/' unless it is the whole path. */
  predicate IsBasenameOf(path: string, b: string) {
    && '/' !in b && |b| <= |path| && path[|path| - |b|..] == b
    && (|b| < |path| ==> path[|path| - |b| - 1] == '/')
  }

  /** `os.path.basename`: the text after the last '/'. */
  function Basename(path: string): (b: string)
    ensures IsBasenameOf(path, b)
  {
    if |path| == 0 || path[|path| - 1] == '/' then ""
    else
      var front := Basename(path[..|path| - 1]);
      BasenameExtends(path, front);
      front + [path[|path| - 1]]
  }

  /** A last character other than '/' joins the base name of the rest. */
  lemma BasenameExtends(path: string, front: string)
    requires |path| > 0 && path[|path| - 1] != '/'
    requires IsBasenameOf(path[..|path| - 1], front)
    ensures IsBasenameOf(path, front + [path[|path| - 1]])
  {
    var n := |path| - 1;
    var b := front + [path[n]];
    assert path[..n][n - |front|..] == path[n - |front|..n];
    assert path[|path| - |b|..] == path[n - |front|..n] + [path[n]];
    if |b| < |path| {
      assert path[|path| - |b| - 1] == path[..n][n - |front| - 1];
    }
  }

  /** `os.path.join(directory, name)` for two parts. */
  function Join(directory: string, name: string): (r: string)
    ensures |name| <= |r| && EndsWith(r, name)
  {
    if StartsWith(name, "/") then name
    else if |directory| == 0 || EndsWith(directory, "/") then directory + name
    else directory + "/" + name
  }

  /** The position of the last '.' in `s`, or None when there is none. */
  function LastDot(s: string): (r: Option<nat>)
    ensures r.None? <==> '.' !in s
    ensures r.Some? ==> r.value < |s| && s[r.value] == '.' && '.' !in s[r.value + 1..]
  {
    if |s| == 0 then None
    else if s[|s| - 1] == '.' then Some(|s| - 1)
    else
      var r := LastDot(s[..|s| - 1]);
      LastDotExtends(s, r);
      r
  }

  /** A last character other than '.' leaves the last dot where it was. */
  lemma LastDotExtends(s: string, r: Option<nat>)
    requires |s| > 0 && s[|s| - 1] != '.'
    requires var front := s[..|s| - 1];
      && (r.None? <==> '.' !in front)
      && (r.Some? ==> r.value < |front| && front[r.value] == '.' && '.' !in front[r.value + 1..])
    ensures r.None? <==> '.' !in s
    ensures r.Some? ==> r.value < |s| && s[r.value] == '.' && '.' !in s[r.value + 1..]
  {
    var n := |s| - 1;
    assert s == s[..n] + [s[n]];
    if r.Some? {
      assert s[r.value + 1..] == s[..n][r.value + 1..] + [s[n]];
    }
  }

  /** `os.path.splitext` of a name without '/': the extension starts at the
      last '.', unless everything before that dot is dots (a hidden file). */
  function SplitName(name: string): (r: (string, string))
    ensures r.0 + r.1 == name
    ensures r.1 != "" ==> r.1[0] == '.' && '.' !in r.1[1..] && exists k :: 0 <= k < |r.0| && r.0[k] != '.'
    ensures r.1 == "" ==> forall d :: 0 <= d < |name| && name[d] == '.' && '.' !in name[d + 1..] ==>
      forall k :: 0 <= k < d ==> name[k] == '.'
  {
    match LastDot(name)
    case None => (name, "")
    case Some(d) =>
      if exists k :: 0 <= k < d && name[k] != '.' then
        assert name[..d] + name[d..] == name;
        assert name[d..][1..] == name[d + 1..];
        (name[..d], name[d..])
      else
        assert forall d' :: 0 <= d' < |name| && name[d'] == '.' && '.' !in name[d' + 1..] ==> d' == d by {
          forall d' | 0 <= d' < |name| && name[d'] == '.' && '.' !in name[d' + 1..] ensures d' == d {
          }
        }
        (name, "")
  }

  // The rename

  /** `f"{current_time}_{idx}_{name}{ext}"`. */
  function NewFileName(time: string, idx: nat, name: string, ext: string): string {
    time + "_" + NatToString(idx) + "_" + name + ext
  }

  /** The name a moved file receives: its base name, split and rejoined. */
  function RenamedFile(time: string, idx: nat, path: string): string {
    var parts := SplitName(Basename(path));
    NewFileName(time, idx, parts.0, parts.1)
  }

  /** Splitting and rejoining gives back the base name: a moved file keeps
      its whole name behind the time and index. */
  lemma RenamedFileKeepsName(time: string, idx: nat, path: string)
    ensures RenamedFile(time, idx, path) == time + "_" + NatToString(idx) + "_" + Basename(path)
    ensures EndsWith(RenamedFile(time, idx, path), Basename(path))
  {
    var b := Basename(path);
    var parts := SplitName(b);
    Prefixed(time + "_" + NatToString(idx) + "_", parts.0, parts.1, b);
  }

  lemma Prefixed(pre: string, name: string, ext: string, b: string)
    requires name + ext == b
    ensures pre + name + ext == pre + b
    ensures EndsWith(pre + b, b)
  {
    assert pre + name + ext == pre + (name + ext);
    assert (pre + b)[|pre + b| - |b|..] == b;
  }

  /** The suffixes of the result-folder move; "txt" carries no dot. */
  const MovedSuffixes: seq<string> := [".png", ".jpg", ".jpeg", ".gif", ".bmp", "txt"]

  /** `filename.lower().endswith((...))`. */
  predicate IsMovedResult(fileName: string) {
    exists k :: 0 <= k < |MovedSuffixes| && EndsWith(Lower(fileName), MovedSuffixes[k])
  }

  /** The filter ignores case, and "txt" matches without a dot. */
  lemma MovedResultExamples()
    ensures IsMovedResult("ball_labels.txt")
    ensures IsMovedResult("SHOT.PNG")
    ensures IsMovedResult("notxt")
    ensures !IsMovedResult("frame.tiff")
  {
    LabelsMoved();
    UpperCaseMoved();
    DotlessTxtMoved();
    TiffNotMoved();
  }

  lemma DotlessTxtMoved()
    ensures IsMovedResult("notxt")
  {
    assert EndsWith(Lower("notxt"), MovedSuffixes[5]);
  }

  lemma LabelsMoved()
    ensures IsMovedResult("ball_labels.txt")
  {
    assert EndsWith(Lower("ball_labels.txt"), MovedSuffixes[5]);
  }

  lemma UpperCaseMoved()
    ensures IsMovedResult("SHOT.PNG")
  {
    assert Lower("SHOT.PNG") == "shot.png";
    assert EndsWith(Lower("SHOT.PNG"), MovedSuffixes[0]);
  }

  lemma TiffNotMoved()
    ensures !IsMovedResult("frame.tiff")
  {
    var l := Lower("frame.tiff");
    assert l == "frame.tiff";
    assert l[|l| - 4..] == "tiff" && l[|l| - 3..] == "iff" && l[|l| - 5..] == ".tiff";
  }

  /** Lower-casing twice changes nothing, so the filter sees a name and its
      lower-cased form alike. */
  lemma LowerIdempotent(s: string)
    ensures Lower(Lower(s)) == Lower(s)
    ensures IsMovedResult(Lower(s)) <==> IsMovedResult(s)
  {
  }

  /** `result_image_image_move`: each listed file the filter accepts, with
      its new name; the others stay where they are. */
  function ResultMoves(listing: seq<string>, time: string, idx: nat): (moves: seq<(string, string)>)
    ensures |moves| <= |listing|
    ensures forall k :: 0 <= k < |moves| ==> moves[k].0 in listing && IsMovedResult(moves[k].0)
    ensures forall k :: 0 <= k < |moves| ==> moves[k].1 == RenamedFile(time, idx, moves[k].0)
    ensures forall i :: 0 <= i < |listing| && IsMovedResult(listing[i]) ==> exists k :: 0 <= k < |moves| && moves[k].0 == listing[i]
  {
    var ks := Selection.KeptIndices(listing, IsMovedResult);
    var moved := Selection.Pool(listing, IsMovedResult);
    var moves := seq(|moved|, k requires 0 <= k < |moved| => (moved[k], RenamedFile(time, idx, moved[k])));
    assert forall i :: 0 <= i < |listing| && IsMovedResult(listing[i]) ==> exists k :: 0 <= k < |moves| && moves[k].0 == listing[i] by {
      forall i | 0 <= i < |listing| && IsMovedResult(listing[i]) ensures exists k :: 0 <= k < |moves| && moves[k].0 == listing[i] {
        var k :| 0 <= k < |ks| && ks[k] == i;
        assert moves[k].0 == listing[i];
      }
    }
    moves
  }

  // `parse_file_info`

  /** The four groups of a match: time, index, name and extension (without the dot). */
  datatype FileInfo = FileInfo(time: string, idx: string, name: string, ext: string)

  predicate AllWord(s: string) {
    forall i :: 0 <= i < |s| ==> IsWordChar(s[i])
  }

  /** The length of the run of digits starting at `i`. */
  function DigitRun(s: string, i: nat): (n: nat)
    requires i <= |s|
    ensures i + n <= |s|
    ensures forall k :: i <= k < i + n ==> IsDigit(s[k])
    ensures i + n < |s| ==> !IsDigit(s[i + n])
    decreases |s| - i
  {
    if i < |s| && IsDigit(s[i]) then 1 + DigitRun(s, i + 1) else 0
  }

  /** The length of the run of word characters starting at `i`. */
  function WordRun(s: string, i: nat): (n: nat)
    requires i <= |s|
    ensures i + n <= |s|
    ensures forall k :: i <= k < i + n ==> IsWordChar(s[k])
    ensures i + n < |s| ==> !IsWordChar(s[i + n])
    decreases |s| - i
  {
    if i < |s| && IsWordChar(s[i]) then 1 + WordRun(s, i + 1) else 0
  }

  /** A '.' at `j` that `\.(\w+)` can match: a word character follows it. */
  predicate DotWordAt(s: string, j: int) {
    0 <= j && j + 1 < |s| && s[j] == '.' && IsWordChar(s[j + 1])
  }

  /** A position where the lazy group cannot extend past: a newline, which
      `.` does not match, or a dot the rest of the pattern can take. */
  predicate LazyStop(s: string, k: int) {
    0 <= k < |s| && (s[k] == '\n' || DotWordAt(s, k))
  }

  /** The lazy `(.*?)` from `i`: the first dot with a word character after
      it, found before any newline (which `.` cannot match). */
  function LazyEnd(s: string, i: nat): (r: Option<nat>)
    requires i <= |s|
    ensures r.Some? ==> i <= r.value && DotWordAt(s, r.value)
    ensures r.Some? ==> forall k :: i <= k < r.value ==> !LazyStop(s, k)
    ensures r.None? ==> forall j :: i <= j && DotWordAt(s, j) ==> exists k :: i <= k < j && s[k] == '\n'
    decreases |s| - i
  {
    if i == |s| then None
    else if DotWordAt(s, i) then Some(i)
    else if s[i] == '\n' then None
    else LazyEnd(s, i + 1)
  }

  /** `re.match(pattern, file_name)` and its groups, or None. */
  function ParseFileInfo(s: string): Option<FileInfo> {
    if |s| < 15 || !AllDigits(s[..14]) || s[14] != '_' then None
    else ParseAfterTime(s, DigitRun(s, 15))
  }

  /** The rest of the match once the time, its underscore and a run of `n`
      digits are read. */
  function ParseAfterTime(s: string, n: nat): Option<FileInfo>
    requires 15 <= |s| && 15 + n <= |s|
  {
    if n == 0 || 15 + n == |s| || s[15 + n] != '_' then None
    else
      match LazyEnd(s, 16 + n)
      case None => None
      case Some(j) => Some(Groups(s, n, j, WordRun(s, j + 1)))
  }

  /** The four groups, cut at the positions the scans found. */
  function Groups(s: string, n: nat, j: nat, w: nat): FileInfo
    requires 16 + n <= j && j + 1 + w <= |s|
  {
    FileInfo(s[..14], s[15..15 + n], s[16 + n..j], s[j + 1..j + 1 + w])
  }

  /** A decomposition the pattern accepts: the four groups followed by any text. */
  predicate Matches(s: string, m: FileInfo, rest: string) {
    && |m.time| == 14 && AllDigits(m.time)
    && |m.idx| > 0 && AllDigits(m.idx)
    && '\n' !in m.name
    && |m.ext| > 0 && AllWord(m.ext)
    && s == m.time + "_" + m.idx + "_" + m.name + "." + m.ext + rest
  }

  /** No '.' inside the name is followed by a word character. */
  predicate NoDotWord(name: string) {
    forall k :: 0 <= k < |name| ==> !DotWordAt(name, k)
  }

  /** The decomposition the regex engine picks: the shortest name (lazy) and
      the longest extension (greedy); the text after it is ignored. */
  predicate Chosen(s: string, m: FileInfo, rest: string) {
    Matches(s, m, rest) && NoDotWord(m.name) && (|rest| == 0 || !IsWordChar(rest[0]))
  }

  /** Whatever `parse_file_info` returns is the engine's choice of match. */
  lemma ParseSound(s: string)
    requires ParseFileInfo(s).Some?
    ensures var m := ParseFileInfo(s).value;
      Chosen(s, m, s[|m.time| + |m.idx| + |m.name| + |m.ext| + 3..])
  {
    var m := ParseFileInfo(s).value;
    ParseGuards(s);
    var n := DigitRun(s, 15);
    var j := LazyEnd(s, 16 + n).value;
    var w := WordRun(s, j + 1);
    ParseIs(s, n, j, w);
    GroupsChosen(s, n, j, w);
    assert |m.time| + |m.idx| + |m.name| + |m.ext| + 3 == j + 1 + w;
  }

  /** The groups cut where `parse_file_info` cuts them form the engine's
      choice of match. */
  lemma GroupsChosen(s: string, n: nat, j: nat, w: nat)
    requires |s| >= 15 && AllDigits(s[..14]) && s[14] == '_'
    requires n > 0 && 16 + n <= j && DotWordAt(s, j) && s[15 + n] == '_'
    requires j + 1 + w <= |s|
    requires forall k :: 15 <= k < 15 + n ==> IsDigit(s[k])
    requires forall k :: j + 1 <= k < j + 1 + w ==> IsWordChar(s[k])
    requires j + 1 + w < |s| ==> !IsWordChar(s[j + 1 + w])
    requires forall k :: 16 + n <= k < j ==> !LazyStop(s, k)
    ensures Chosen(s, Groups(s, n, j, w), s[j + 1 + w..])
  {
    Reassemble(s, n, j, w);
    ParsedNameHasNoEnd(s, 16 + n, j);
    assert w > 0;
    var idx, ext := s[15..15 + n], s[j + 1..j + 1 + w];
    forall k | 0 <= k < |idx| ensures IsDigit(idx[k]) {
      assert idx[k] == s[15 + k];
    }
    forall k | 0 <= k < |ext| ensures IsWordChar(ext[k]) {
      assert ext[k] == s[j + 1 + k];
    }
    if j + 1 + w < |s| {
      assert s[j + 1 + w..][0] == s[j + 1 + w];
    }
  }

  /** The name found by the lazy group holds no newline and no dot before a
      word character. */
  lemma ParsedNameHasNoEnd(s: string, i: nat, j: nat)
    requires i <= j <= |s|
    requires forall k :: i <= k < j ==> !LazyStop(s, k)
    ensures '\n' !in s[i..j] && NoDotWord(s[i..j])
  {
    var name := s[i..j];
    forall k | 0 <= k < |name| ensures name[k] != '\n' && !DotWordAt(name, k) {
      assert name[k] == s[i + k];
      assert !LazyStop(s, i + k);
      if k + 1 < |name| {
        assert name[k + 1] == s[i + k + 1];
      }
    }
  }

  /** A name cut at the positions `parse_file_info` finds is the
      concatenation of its groups and separators. */
  lemma Reassemble(s: string, n: nat, j: nat, w: nat)
    requires 16 + n <= j && j + 1 + w <= |s|
    requires s[14] == '_' && s[15 + n] == '_' && s[j] == '.'
    ensures s == s[..14] + "_" + s[15..15 + n] + "_" + s[16 + n..j] + "." + s[j + 1..j + 1 + w] + s[j + 1 + w..]
  {
    PrefixChar(s, 14);
    PrefixGrow(s, 15, 15 + n);
    PrefixChar(s, 15 + n);
    PrefixGrow(s, 16 + n, j);
    PrefixChar(s, j);
    PrefixGrow(s, j + 1, j + 1 + w);
    PrefixGrow(s, j + 1 + w, |s|);
    assert s[..|s|] == s;
  }

  lemma PrefixGrow(s: string, p: nat, q: nat)
    requires p <= q <= |s|
    ensures s[..p] + s[p..q] == s[..q]
  {
  }

  lemma PrefixChar(s: string, p: nat)
    requires p < |s|
    ensures s[..p] + [s[p]] == s[..p + 1]
  {
  }

  /** Where each group of a decomposition sits in the name. */
  predicate Laid(s: string, m: FileInfo, rest: string) {
    var n, j := |m.idx|, 16 + |m.idx| + |m.name|;
    && |s| == j + 1 + |m.ext| + |rest|
    && s[..14] == m.time && s[14] == '_' && s[15..15 + n] == m.idx && s[15 + n] == '_'
    && s[16 + n..j] == m.name && s[j] == '.' && s[j + 1..j + 1 + |m.ext|] == m.ext
    && s[j + 1 + |m.ext|..] == rest
  }

  /** A decomposition lays its groups out at fixed offsets. */
  lemma MatchLayout(s: string, m: FileInfo, rest: string)
    requires Matches(s, m, rest)
    ensures Laid(s, m, rest)
  {
    var n, j := |m.idx|, 16 + |m.idx| + |m.name|;
    var a := m.time + "_" + m.idx + "_";
    var b := a + m.name + ".";
    var c := b + m.ext;
    assert s == c + rest;
    assert |a| == 16 + n && |b| == j + 1;
    assert s[..|c|] == c && s[|c|..] == rest;
    assert c[..|b|] == b && c[|b|..] == m.ext;
    assert b[..|a|] == a && b[|a|..j] == m.name;
    assert a[..14] == m.time && a[15..15 + n] == m.idx;
  }

  lemma DigitRunIs(s: string, i: nat, n: nat)
    requires i + n <= |s|
    requires forall k :: i <= k < i + n ==> IsDigit(s[k])
    requires i + n < |s| ==> !IsDigit(s[i + n])
    ensures DigitRun(s, i) == n
  {
  }

  lemma WordRunIs(s: string, i: nat, n: nat)
    requires i + n <= |s|
    requires forall k :: i <= k < i + n ==> IsWordChar(s[k])
    requires i + n < |s| ==> !IsWordChar(s[i + n])
    ensures WordRun(s, i) == n
  {
  }

  lemma LazyEndIs(s: string, i: nat, j: nat)
    requires i <= j && DotWordAt(s, j)
    requires forall k :: i <= k < j ==> !LazyStop(s, k)
    ensures LazyEnd(s, i) == Some(j)
  {
    forall k | i <= k < j ensures s[k] != '\n' {
      assert !LazyStop(s, k);
    }
    var e := LazyEnd(s, i);
    assert LazyStop(s, j);
    if e.None? {
      assert false;
    } else {
      assert LazyStop(s, e.value);
    }
  }

  /** The choice is unique: a chosen decomposition is exactly what
      `parse_file_info` returns. */
  lemma ParseChosen(s: string, m: FileInfo, rest: string)
    requires Chosen(s, m, rest)
    ensures ParseFileInfo(s) == Some(m)
  {
    MatchLayout(s, m, rest);
    ParseLaidChosen(s, m, rest);
  }

  lemma ParseLaidChosen(s: string, m: FileInfo, rest: string)
    requires Laid(s, m, rest) && |m.time| == 14 && AllDigits(m.time) && |m.idx| > 0 && AllDigits(m.idx)
    requires '\n' !in m.name && NoDotWord(m.name)
    requires |m.ext| > 0 && AllWord(m.ext) && (|rest| == 0 || !IsWordChar(rest[0]))
    ensures ParseFileInfo(s) == Some(m)
  {
    var n, j := |m.idx|, 16 + |m.idx| + |m.name|;
    GroupsAre(s, n, j, m);
    ChosenIndex(s, m.idx);
    ChosenScans(s, m, rest);
    ParseIs(s, n, j, |m.ext|);
  }

  /** The name and extension scans of `parse_file_info` stop where a chosen
      decomposition puts them. */
  lemma ChosenScans(s: string, m: FileInfo, rest: string)
    requires Laid(s, m, rest) && '\n' !in m.name && NoDotWord(m.name)
    requires |m.ext| > 0 && AllWord(m.ext) && (|rest| == 0 || !IsWordChar(rest[0]))
    ensures var j := 16 + |m.idx| + |m.name|;
      LazyEnd(s, 16 + |m.idx|) == Some(j) && WordRun(s, j + 1) == |m.ext|
  {
    var j := 16 + |m.idx| + |m.name|;
    ChosenExt(s, j + 1, m.ext, rest);
    var e := s[j + 1..j + 1 + |m.ext|];
    assert IsWordChar(e[0]);
    assert s[j + 1] == e[0];
    ChosenLazy(s, 16 + |m.idx|, m.name);
  }

  lemma GroupsAre(s: string, n: nat, j: nat, m: FileInfo)
    requires 16 + n <= j && j + 1 + |m.ext| <= |s|
    requires s[..14] == m.time && s[15..15 + n] == m.idx
    requires s[16 + n..j] == m.name && s[j + 1..j + 1 + |m.ext|] == m.ext
    ensures Groups(s, n, j, |m.ext|) == m
  {
  }

  /** The checks `parse_file_info` passes on the way to a match. */
  lemma ParseGuards(s: string)
    requires ParseFileInfo(s).Some?
    ensures |s| >= 15 && AllDigits(s[..14]) && s[14] == '_'
    ensures var n := DigitRun(s, 15);
      n > 0 && 15 + n < |s| && s[15 + n] == '_' && LazyEnd(s, 16 + n).Some?
  {
  }

  /** `parse_file_info` once its three scans are known. */
  lemma ParseIs(s: string, n: nat, j: nat, w: nat)
    requires |s| >= 15 && AllDigits(s[..14]) && s[14] == '_'
    requires DigitRun(s, 15) == n && n > 0 && 15 + n < |s| && s[15 + n] == '_'
    requires LazyEnd(s, 16 + n) == Some(j) && WordRun(s, j + 1) == w
    ensures ParseFileInfo(s) == Some(Groups(s, n, j, w))
  {
  }

  /** The index of a decomposition is the digit run `parse_file_info` reads. */
  lemma ChosenIndex(s: string, idx: string)
    requires 15 + |idx| < |s| && |idx| > 0 && AllDigits(idx)
    requires s[15..15 + |idx|] == idx && s[15 + |idx|] == '_'
    ensures DigitRun(s, 15) == |idx|
  {
    forall k | 15 <= k < 15 + |idx| ensures IsDigit(s[k]) {
      assert s[k] == s[15..15 + |idx|][k - 15];
    }
    DigitRunIs(s, 15, |idx|);
  }

  /** The lazy group ends where a name free of newlines and of dots before
      a word character ends. */
  lemma ChosenLazy(s: string, i: nat, name: string)
    requires i + |name| + 1 < |s| && s[i + |name|] == '.' && IsWordChar(s[i + |name| + 1])
    requires s[i..i + |name|] == name
    requires '\n' !in name && NoDotWord(name)
    ensures LazyEnd(s, i) == Some(i + |name|)
  {
    NameHasNoEnd(s, i, name);
    LazyEndIs(s, i, i + |name|);
  }

  /** The greedy extension is the whole run of word characters. */
  lemma ChosenExt(s: string, i: nat, ext: string, rest: string)
    requires i + |ext| + |rest| == |s| && s[i..i + |ext|] == ext && s[i + |ext|..] == rest
    requires AllWord(ext) && (|rest| == 0 || !IsWordChar(rest[0]))
    ensures WordRun(s, i) == |ext|
  {
    if i + |ext| < |s| {
      assert s[i + |ext|] == s[i + |ext|..][0] == rest[0];
    }
    forall k | i <= k < i + |ext| ensures IsWordChar(s[k]) {
      assert s[k] == s[i..i + |ext|][k - i];
    }
    WordRunIs(s, i, |ext|);
  }

  lemma NoNewlineIn(s: string, i: nat, name: string)
    requires i + |name| <= |s| && s[i..i + |name|] == name && '\n' !in name
    ensures forall k :: i <= k < i + |name| ==> s[k] != '\n'
  {
    forall k | i <= k < i + |name| ensures s[k] != '\n' {
      assert s[k] == s[i..i + |name|][k - i];
    }
  }

  /** Inside the chosen name no position can end the lazy group. */
  lemma NameHasNoEnd(s: string, i: nat, name: string)
    requires i + |name| < |s| && s[i + |name|] == '.'
    requires s[i..i + |name|] == name
    requires '\n' !in name && NoDotWord(name)
    ensures forall k :: i <= k < i + |name| ==> !LazyStop(s, k)
  {
    forall k | i <= k < i + |name| ensures !LazyStop(s, k) {
      assert s[k] == s[i..i + |name|][k - i] == name[k - i];
      if k + 1 < i + |name| {
        assert s[k + 1] == s[i..i + |name|][k + 1 - i] == name[k + 1 - i];
        assert !DotWordAt(name, k - i);
      }
    }
  }

  /** Any name the pattern accepts in some way is parsed, with the time and
      index that decomposition shows. */
  lemma ParseComplete(s: string, m: FileInfo, rest: string)
    requires Matches(s, m, rest)
    ensures ParseFileInfo(s).Some?
    ensures ParseFileInfo(s).value.time == m.time && ParseFileInfo(s).value.idx == m.idx
  {
    MatchLayout(s, m, rest);
    ParseLaid(s, m, rest);
  }

  lemma ParseLaid(s: string, m: FileInfo, rest: string)
    requires Laid(s, m, rest) && |m.time| == 14 && AllDigits(m.time) && |m.idx| > 0 && AllDigits(m.idx)
    requires '\n' !in m.name && |m.ext| > 0 && AllWord(m.ext)
    ensures ParseFileInfo(s).Some?
    ensures ParseFileInfo(s).value.time == m.time && ParseFileInfo(s).value.idx == m.idx
  {
    var n, j := |m.idx|, 16 + |m.idx| + |m.name|;
    ChosenIndex(s, m.idx);
    assert s[j + 1] == s[j + 1..j + 1 + |m.ext|][0];
    assert DotWordAt(s, j);
    NoNewlineIn(s, 16 + n, m.name);
    if LazyEnd(s, 16 + n).None? {
      assert false;
    }
  }

  /** The rename and the parser agree: a renamed file parses back into its
      time, index, name and extension, provided the name has no dot before a
      word character and no newline, and the extension is a dot and word characters. */
  lemma RenameRoundTrip(time: string, idx: nat, name: string, ext: string)
    requires |time| == 14 && AllDigits(time)
    requires '\n' !in name && NoDotWord(name)
    requires |ext| >= 2 && ext[0] == '.' && AllWord(ext[1..])
    ensures ParseFileInfo(NewFileName(time, idx, name, ext)) == Some(FileInfo(time, NatToString(idx), name, ext[1..]))
  {
    var m := FileInfo(time, NatToString(idx), name, ext[1..]);
    assert ext == "." + ext[1..];
    assert NewFileName(time, idx, name, ext) == m.time + "_" + m.idx + "_" + m.name + "." + m.ext + "";
    ParseChosen(NewFileName(time, idx, name, ext), m, "");
  }

  /** A dot inside the original name ends the name group early. */
  lemma DottedNameSplitsEarly()
    ensures ParseFileInfo("20250126182140_0_a.b.jpg") == Some(FileInfo("20250126182140", "0", "a", "b"))
  {
    var s := "20250126182140_0_a.b.jpg";
    var m := FileInfo("20250126182140", "0", "a", "b");
    assert s == m.time + "_" + m.idx + "_" + m.name + "." + m.ext + ".jpg";
    ParseChosen(s, m, ".jpg");
  }

  /** Text after the extension's word characters is ignored. */
  lemma TrailingTextIgnored()
    ensures ParseFileInfo("20250126182140_12_K_04.jpg~") == Some(FileInfo("20250126182140", "12", "K_04", "jpg"))
  {
    var s := "20250126182140_12_K_04.jpg~";
    var m := FileInfo("20250126182140", "12", "K_04", "jpg");
    assert Chosen(s, m, "~") by {
      assert s == m.time + "_" + m.idx + "_" + m.name + "." + m.ext + "~";
      assert NoDotWord(m.name) by {
        assert '.' !in m.name;
      }
    }
    ParseChosen(s, m, "~");
  }

  /** A time stamp one digit short is not parsed. */
  lemma ShortTimeRejected()
    ensures ParseFileInfo("2025012618214_0_a.jpg") == None
  {
    var s := "2025012618214_0_a.jpg";
    assert s[..14][13] == '_';
    assert !AllDigits(s[..14]);
  }
}
