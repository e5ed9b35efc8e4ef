/** `generate_data_from_folder`: the sorted folder listing is parsed into
    file records (dropping names the pattern rejects and the label and
    composite files), the records are grouped by "{current_time}_{idx}" in
    order of first appearance, and each group keeps the last best-shot,
    front-view and uploaded-image path it saw. */
module Grouping {
  import opened Wrappers
  import opened Text
  import opened OrderedDict
  import opened FileNames
  import Selection

  // `sorted(...)` on strings

  /** Python's `a <= b` on strings: code points compared in order, a proper
      prefix sorting first. */
  predicate LessEq(a: string, b: string) {
    |a| == 0 || (|b| > 0 && (a[0] < b[0] || (a[0] == b[0] && LessEq(a[1..], b[1..]))))
  }

  lemma {:induction false} LessEqTotal(a: string, b: string)
    ensures LessEq(a, b) || LessEq(b, a)
  {
    if |a| > 0 && |b| > 0 && a[0] == b[0] {
      LessEqTotal(a[1..], b[1..]);
    }
  }

  lemma {:induction false} LessEqTransitive(a: string, b: string, c: string)
    requires LessEq(a, b) && LessEq(b, c)
    ensures LessEq(a, c)
  {
    if |a| > 0 && a[0] == b[0] && b[0] == c[0] {
      LessEqTransitive(a[1..], b[1..], c[1..]);
    }
  }

  lemma {:induction false} LessEqAntisymmetric(a: string, b: string)
    requires LessEq(a, b) && LessEq(b, a)
    ensures a == b
  {
    if |a| > 0 && |b| > 0 {
      LessEqAntisymmetric(a[1..], b[1..]);
      assert a == [a[0]] + a[1..] && b == [b[0]] + b[1..];
    }
  }

  predicate Sorted(xs: seq<string>) {
    forall i :: 0 < i < |xs| ==> LessEq(xs[i - 1], xs[i])
  }

  /** Inserting into a sorted list keeps it sorted and adds exactly one element. */
  function Insert(x: string, xs: seq<string>): (r: seq<string>)
    requires Sorted(xs)
    ensures Sorted(r)
    ensures multiset(r) == multiset(xs) + multiset{x}
    ensures |r| > 0 && (r[0] == x || (|xs| > 0 && r[0] == xs[0]))
  {
    if |xs| == 0 || LessEq(x, xs[0]) then [x] + xs
    else
      LessEqTotal(x, xs[0]);
      var rest := Insert(x, xs[1..]);
      assert xs == [xs[0]] + xs[1..];
      [xs[0]] + rest
  }

  /** `sorted(listing)` by insertion. */
  function Sort(xs: seq<string>): (r: seq<string>)
    ensures Sorted(r)
    ensures multiset(r) == multiset(xs)
    ensures |r| == |xs|
  {
    if |xs| == 0 then []
    else
      assert xs == [xs[0]] + xs[1..];
      Insert(xs[0], Sort(xs[1..]))
  }

  /** A sorted arrangement of a listing is unique: the sort result does not
      depend on the order the folder lists its files in. */
  lemma {:induction false} SortedUnique(a: seq<string>, b: seq<string>)
    requires Sorted(a) && Sorted(b) && multiset(a) == multiset(b)
    ensures a == b
  {
    assert |a| == |b| by { assert |multiset(b)| == |multiset(a)|; }
    if |a| > 0 {
      SortedHeads(a, b);
      SameTails(a, b);
      SortedTail(a);
      SortedTail(b);
      SortedUnique(a[1..], b[1..]);
      assert a == [a[0]] + a[1..] && b == [b[0]] + b[1..];
    }
  }

  /** Two sorted arrangements of one multiset start with the same element. */
  lemma SortedHeads(a: seq<string>, b: seq<string>)
    requires Sorted(a) && Sorted(b) && multiset(a) == multiset(b)
    requires |a| > 0 && |b| > 0
    ensures a[0] == b[0]
  {
    assert b[0] in multiset(a) && a[0] in multiset(b);
    SortedHeadIsLeast(a, b[0]);
    SortedHeadIsLeast(b, a[0]);
    LessEqAntisymmetric(a[0], b[0]);
  }

  lemma SameTails(a: seq<string>, b: seq<string>)
    requires multiset(a) == multiset(b) && |a| > 0 && |b| > 0 && a[0] == b[0]
    ensures multiset(a[1..]) == multiset(b[1..])
  {
    assert a == [a[0]] + a[1..] && b == [b[0]] + b[1..];
    assert multiset(a[1..]) == multiset(a) - multiset{a[0]};
    assert multiset(b[1..]) == multiset(b) - multiset{b[0]};
  }

  lemma SortedTail(a: seq<string>)
    requires Sorted(a) && |a| > 0
    ensures Sorted(a[1..])
  {
    forall i | 0 < i < |a[1..]| ensures LessEq(a[1..][i - 1], a[1..][i]) {
      assert a[1..][i - 1] == a[i] && a[1..][i] == a[i + 1];
    }
  }

  /** The head of a sorted list is below every element in it. */
  lemma {:induction false} SortedHeadIsLeast(a: seq<string>, x: string)
    requires Sorted(a) && x in multiset(a)
    ensures LessEq(a[0], x)
  {
    if a[0] != x {
      assert x in multiset(a[1..]) by {
        assert a == [a[0]] + a[1..];
        assert multiset(a) == multiset{a[0]} + multiset(a[1..]);
      }
      SortedTail(a);
      SortedHeadIsLeast(a[1..], x);
      LessEqTransitive(a[0], a[1], x);
    } else {
      LessEqReflexive(x);
    }
  }

  lemma {:induction false} LessEqReflexive(a: string)
    ensures LessEq(a, a)
  {
    if |a| > 0 {
      LessEqReflexive(a[1..]);
    }
  }

  // File records

  /** The names `generate_data_from_folder` leaves out of every group. */
  const ExcludedNames: seq<string> := ["ball_labels", "table_with_balls"]

  /** `any(excluded in name for excluded in excluded_names)`. */
  predicate IsExcluded(name: string) {
    Contains(name, ExcludedNames[0]) || Contains(name, ExcludedNames[1])
  }

  /** A file that enters the grouping: its name parses and is not excluded. */
  predicate IsGrouped(fileName: string) {
    ParseFileInfo(fileName).Some? && !IsExcluded(ParseFileInfo(fileName).value.name)
  }

  /** One entry of `file_info`. */
  datatype Record = Record(fileName: string, info: FileInfo, fullPath: string)

  function RecordOf(directory: string, fileName: string): Record
    requires IsGrouped(fileName)
  {
    Record(fileName, ParseFileInfo(fileName).value, Join(directory, fileName))
  }

  /** `file_info`: the records of the grouped files, in listing order. */
  function Records(directory: string, files: seq<string>): (rs: seq<Record>)
    ensures forall k :: 0 <= k < |rs| ==> rs[k].fileName in files && IsGrouped(rs[k].fileName) && rs[k] == RecordOf(directory, rs[k].fileName)
    ensures forall i :: 0 <= i < |files| && IsGrouped(files[i]) ==> exists k :: 0 <= k < |rs| && rs[k].fileName == files[i]
  {
    var ks := Selection.KeptIndices(files, IsGrouped);
    var rs := seq(|ks|, k requires 0 <= k < |ks| => RecordOf(directory, files[ks[k]]));
    assert forall k :: 0 <= k < |rs| ==> rs[k].fileName in files && IsGrouped(rs[k].fileName) && rs[k] == RecordOf(directory, rs[k].fileName) by {
      forall k | 0 <= k < |rs| ensures rs[k].fileName in files && IsGrouped(rs[k].fileName) && rs[k] == RecordOf(directory, rs[k].fileName) {
        assert rs[k].fileName == files[ks[k]];
      }
    }
    assert forall i :: 0 <= i < |files| && IsGrouped(files[i]) ==> exists k :: 0 <= k < |rs| && rs[k].fileName == files[i] by {
      forall i | 0 <= i < |files| && IsGrouped(files[i]) ensures exists k :: 0 <= k < |rs| && rs[k].fileName == files[i] {
        var k :| 0 <= k < |ks| && ks[k] == i;
        assert rs[k].fileName == files[i];
      }
    }
    rs
  }

  // Groups

  /** One row of the result: the group's index and its three file paths. */
  datatype Group = Group(index: string, uploadImage: Option<string>, bestShot: Option<string>, frontView: Option<string>)

  datatype Field = UploadImage | BestShot | FrontView

  /** The field a file fills: best shot first, then front view, else the upload. */
  function FieldOf(name: string): Field {
    if Contains(name, "best_shot") then BestShot
    else if Contains(name, "front_view") then FrontView
    else UploadImage
  }

  function Read(g: Group, f: Field): Option<string> {
    match f
    case UploadImage => g.uploadImage
    case BestShot => g.bestShot
    case FrontView => g.frontView
  }

  function Write(g: Group, f: Field, path: string): (r: Group)
    ensures Read(r, f) == Some(path)
    ensures forall f' :: f' != f ==> Read(r, f') == Read(g, f')
    ensures r.index == g.index
  {
    match f
    case UploadImage => g.(uploadImage := Some(path))
    case BestShot => g.(bestShot := Some(path))
    case FrontView => g.(frontView := Some(path))
  }

  /** `f"{current_time}_{idx}"`. */
  function GroupKey(r: Record): string {
    r.info.time + "_" + r.info.idx
  }

  /** One pass of the grouping loop: a new key gets a fresh group holding the
      record's index, then the record's field is set. */
  function AddRecord(groups: Dict<string, Group>, r: Record): (g: Dict<string, Group>)
    requires DistinctKeys(groups)
    ensures DistinctKeys(g)
  {
    var key := GroupKey(r);
    var current := match Get(groups, key)
      case Some(existing) => existing
      case None => Group(r.info.idx, None, None, None);
    Put(groups, key, Write(current, FieldOf(r.info.name), r.fullPath))
  }

  /** `grouped_data` after the loop over the records. */
  function GroupAll(rs: seq<Record>): (g: Dict<string, Group>)
    ensures DistinctKeys(g)
  {
    if |rs| == 0 then [] else AddRecord(GroupAll(rs[..|rs| - 1]), rs[|rs| - 1])
  }

  // Reference definitions for the grouping

  function KeysOf(rs: seq<Record>): (ks: seq<string>)
    ensures |ks| == |rs|
    ensures forall i :: 0 <= i < |rs| ==> ks[i] == GroupKey(rs[i])
  {
    seq(|rs|, i requires 0 <= i < |rs| => GroupKey(rs[i]))
  }

  /** The distinct elements of `xs` in order of first occurrence. */
  function FirstOccurrences(xs: seq<string>): (d: seq<string>)
    ensures forall i, j :: 0 <= i < j < |d| ==> d[i] != d[j]
    ensures forall x :: x in d <==> x in xs
  {
    if |xs| == 0 then []
    else
      var n := |xs| - 1;
      var d := FirstOccurrences(xs[..n]);
      assert forall x :: x in xs <==> x in xs[..n] || x == xs[n];
      if xs[n] in d then d else d + [xs[n]]
  }

  /** The path of the last record with this key that fills field `f`. */
  function LastPath(rs: seq<Record>, key: string, f: Field): (p: Option<string>)
    ensures p.Some? ==> exists i :: 0 <= i < |rs| && GroupKey(rs[i]) == key && FieldOf(rs[i].info.name) == f && rs[i].fullPath == p.value
  {
    if |rs| == 0 then None
    else
      var n := |rs| - 1;
      if GroupKey(rs[n]) == key && FieldOf(rs[n].info.name) == f then Some(rs[n].fullPath)
      else
        var p := LastPath(rs[..n], key, f);
        assert p.Some? ==> exists i :: 0 <= i < n && GroupKey(rs[i]) == key && FieldOf(rs[i].info.name) == f && rs[i].fullPath == p.value by {
          if p.Some? {
            var i :| 0 <= i < n && GroupKey(rs[..n][i]) == key && FieldOf(rs[..n][i].info.name) == f && rs[..n][i].fullPath == p.value;
            assert rs[..n][i] == rs[i];
          }
        }
        p
  }

  /** The groups appear in order of the first record carrying their key. */
  lemma {:induction false} GroupOrder(rs: seq<Record>)
    ensures Keys(GroupAll(rs)) == FirstOccurrences(KeysOf(rs))
  {
    if |rs| > 0 {
      var n := |rs| - 1;
      var ks, before := KeysOf(rs), GroupAll(rs[..n]);
      assert ks[..n] == KeysOf(rs[..n]) && ks[n] == GroupKey(rs[n]);
      assert Keys(before) == FirstOccurrences(ks[..n]) by {
        GroupOrder(rs[..n]);
      }
      AddRecordKeys(before, rs[n]);
    }
  }

  /** A record adds its key to the end of the key list unless the key is there. */
  lemma AddRecordKeys(groups: Dict<string, Group>, r: Record)
    requires DistinctKeys(groups)
    ensures Keys(AddRecord(groups, r)) ==
      if GroupKey(r) in Keys(groups) then Keys(groups) else Keys(groups) + [GroupKey(r)]
  {
  }

  /** One pass of the loop, seen from a single key: other keys keep their
      group; the record's key gets the record's path in its field, and its
      other fields and index carry over from the existing group, or are
      empty and the record's index for a new one. */
  lemma AddRecordAt(groups: Dict<string, Group>, r: Record, key: string)
    requires DistinctKeys(groups)
    ensures key != GroupKey(r) ==> Get(AddRecord(groups, r), key) == Get(groups, key)
    ensures key == GroupKey(r) ==> Get(AddRecord(groups, r), key).Some?
    ensures key == GroupKey(r) ==> Read(Get(AddRecord(groups, r), key).value, FieldOf(r.info.name)) == Some(r.fullPath)
    ensures key == GroupKey(r) ==> forall f :: f != FieldOf(r.info.name) ==>
      Read(Get(AddRecord(groups, r), key).value, f) == (if Get(groups, key).Some? then Read(Get(groups, key).value, f) else None)
    ensures key == GroupKey(r) ==>
      Get(AddRecord(groups, r), key).value.index == (if Get(groups, key).Some? then Get(groups, key).value.index else r.info.idx)
  {
  }

  lemma KeysOfSnoc(rs: seq<Record>)
    requires |rs| > 0
    ensures forall x :: x in KeysOf(rs) <==> x in KeysOf(rs[..|rs| - 1]) || x == GroupKey(rs[|rs| - 1])
  {
    assert KeysOf(rs) == KeysOf(rs[..|rs| - 1]) + [GroupKey(rs[|rs| - 1])];
  }

  /** A key has a group exactly when some record carries it. */
  lemma {:induction false} GroupKeys(rs: seq<Record>, key: string)
    ensures Get(GroupAll(rs), key).Some? <==> key in KeysOf(rs)
  {
    if |rs| > 0 {
      var n := |rs| - 1;
      GroupKeys(rs[..n], key);
      KeysOfSnoc(rs);
      AddRecordAt(GroupAll(rs[..n]), rs[n], key);
    }
  }

  /** Each field of a group holds the last path of its kind among the
      records with the group's key. */
  lemma {:induction false} GroupFields(rs: seq<Record>, key: string, f: Field)
    requires Get(GroupAll(rs), key).Some?
    ensures Read(Get(GroupAll(rs), key).value, f) == LastPath(rs, key, f)
  {
    var n := |rs| - 1;
    var before := GroupAll(rs[..n]);
    AddRecordAt(before, rs[n], key);
    if GroupKey(rs[n]) != key {
      GroupFields(rs[..n], key, f);
    } else if FieldOf(rs[n].info.name) != f {
      if Get(before, key).Some? {
        GroupFields(rs[..n], key, f);
      } else {
        GroupKeys(rs[..n], key);
        NoPathWithoutKey(rs[..n], key, f);
      }
    }
  }

  lemma {:induction false} NoPathWithoutKey(rs: seq<Record>, key: string, f: Field)
    requires key !in KeysOf(rs)
    ensures LastPath(rs, key, f) == None
  {
    if |rs| > 0 {
      KeysOfSnoc(rs);
      NoPathWithoutKey(rs[..|rs| - 1], key, f);
    }
  }

  /** The time has fourteen characters, so a key gives back its index. */
  lemma KeyDeterminesIndex(a: Record, b: Record)
    requires |a.info.time| == 14 && |b.info.time| == 14
    requires GroupKey(a) == GroupKey(b)
    ensures a.info.idx == b.info.idx && a.info.time == b.info.time
  {
    assert GroupKey(a)[15..] == a.info.idx;
    assert GroupKey(b)[15..] == b.info.idx;
    assert GroupKey(a)[..14] == a.info.time;
    assert GroupKey(b)[..14] == b.info.time;
  }

  /** The "index" of a group equals the parsed index of every record in it. */
  lemma {:induction false} GroupIndex(rs: seq<Record>, i: nat)
    requires forall k :: 0 <= k < |rs| ==> |rs[k].info.time| == 14
    requires i < |rs|
    ensures Get(GroupAll(rs), GroupKey(rs[i])).Some?
    ensures Get(GroupAll(rs), GroupKey(rs[i])).value.index == rs[i].info.idx
  {
    var n := |rs| - 1;
    var key, idx := GroupKey(rs[i]), rs[i].info.idx;
    var before := GroupAll(rs[..n]);
    if key != GroupKey(rs[n]) {
      assert i < n && rs[..n][i] == rs[i];
      assert Get(before, key).Some? && Get(before, key).value.index == idx by {
        GroupIndex(rs[..n], i);
      }
    } else {
      KeyDeterminesIndex(rs[i], rs[n]);
      if Get(before, key).Some? {
        var j :| 0 <= j < n && GroupKey(rs[j]) == key by {
          GroupKeys(rs[..n], key);
          var j :| 0 <= j < n && KeysOf(rs[..n])[j] == key;
          assert rs[..n][j] == rs[j];
        }
        assert Get(before, key).value.index == idx by {
          assert rs[..n][j] == rs[j];
          GroupIndex(rs[..n], j);
          KeyDeterminesIndex(rs[j], rs[i]);
        }
      }
    }
    GroupIndexStep(before, rs[n], key, idx);
  }

  /** One pass of the loop keeps a key's group index, or gives a new key the record's index. */
  lemma GroupIndexStep(before: Dict<string, Group>, r: Record, key: string, idx: string)
    requires DistinctKeys(before)
    requires key == GroupKey(r) || Get(before, key).Some?
    requires Get(before, key).Some? ==> Get(before, key).value.index == idx
    requires key == GroupKey(r) ==> r.info.idx == idx
    ensures Get(AddRecord(before, r), key).Some?
    ensures Get(AddRecord(before, r), key).value.index == idx
  {
    AddRecordAt(before, r, key);
  }

  // The result list

  /** The final pass: an empty upload path becomes None. */
  function Finalise(g: Group): (r: Group)
    ensures r.index == g.index && r.bestShot == g.bestShot && r.frontView == g.frontView
    ensures r.uploadImage.Some? ==> |r.uploadImage.value| > 0
    ensures g.uploadImage.Some? && |g.uploadImage.value| > 0 ==> r == g
  {
    g.(uploadImage := if g.uploadImage.Some? && |g.uploadImage.value| > 0 then g.uploadImage else None)
  }

  /** `generate_data_from_folder`, given the folder's listing, or None when
      the folder does not exist (the function raises then). */
  function GenerateData(directory: string, listing: Option<seq<string>>): (r: Option<seq<Group>>)
    ensures r.None? <==> listing.None?
  {
    match listing
    case None => None
    case Some(files) =>
      Some(Rows(Records(directory, Sort(files))))
  }

  /** The groups of the records as the service returns them. */
  function Rows(rs: seq<Record>): seq<Group> {
    var g := GroupAll(rs);
    seq(|g|, i requires 0 <= i < |g| => Finalise(g[i].1))
  }

  /** A grouped record has a fourteen-character time and a non-empty path. */
  lemma RecordShape(directory: string, fileName: string)
    requires IsGrouped(fileName)
    ensures |RecordOf(directory, fileName).info.time| == 14
    ensures |RecordOf(directory, fileName).fullPath| > 0
  {
    ParseSound(fileName);
  }

  lemma RecordsShape(directory: string, files: seq<string>)
    ensures var rs := Records(directory, files);
      forall k :: 0 <= k < |rs| ==> |rs[k].info.time| == 14 && |rs[k].fullPath| > 0
  {
    var rs := Records(directory, files);
    forall k | 0 <= k < |rs| ensures |rs[k].info.time| == 14 && |rs[k].fullPath| > 0 {
      RecordShape(directory, rs[k].fileName);
    }
  }

  /** Every path in a group is a file of the listing whose name parsed, whose
      parsed name holds no excluded word, and whose field matches its name. */
  lemma PathsComeFromGroupedFiles(directory: string, files: seq<string>, key: string, f: Field)
    requires Get(GroupAll(Records(directory, files)), key).Some?
    requires Read(Get(GroupAll(Records(directory, files)), key).value, f).Some?
    ensures exists i :: (
      && 0 <= i < |files| && IsGrouped(files[i])
      && FieldOf(ParseFileInfo(files[i]).value.name) == f
      && Join(directory, files[i]) == Read(Get(GroupAll(Records(directory, files)), key).value, f).value)
  {
    var rs := Records(directory, files);
    GroupFields(rs, key, f);
    var p := Read(Get(GroupAll(rs), key).value, f).value;
    var k :| 0 <= k < |rs| && GroupKey(rs[k]) == key && FieldOf(rs[k].info.name) == f && rs[k].fullPath == p;
    assert rs[k].fileName in files && rs[k] == RecordOf(directory, rs[k].fileName);
    var i :| 0 <= i < |files| && files[i] == rs[k].fileName;
    assert IsGrouped(files[i]);
  }

  /** Row `i` is the group of the i-th key, untouched by the final pass. */
  lemma RowIsGroup(rs: seq<Record>, i: nat)
    requires i < |GroupAll(rs)|
    requires forall k :: 0 <= k < |rs| ==> |rs[k].fullPath| > 0 && |rs[k].info.time| == 14
    ensures var g := GroupAll(rs);
      && Finalise(g[i].1) == g[i].1
      && (exists k :: 0 <= k < |rs| && GroupKey(rs[k]) == g[i].0 && g[i].1.index == rs[k].info.idx)
      && forall f :: Read(g[i].1, f) == LastPath(rs, g[i].0, f)
  {
    var g := GroupAll(rs);
    var key := g[i].0;
    assert Get(g, key) == Some(g[i].1);
    forall f ensures Read(g[i].1, f) == LastPath(rs, key, f) {
      GroupFields(rs, key, f);
    }
    GroupKeys(rs, key);
    var k :| 0 <= k < |rs| && KeysOf(rs)[k] == key;
    GroupIndex(rs, k);
    if g[i].1.uploadImage.Some? {
      assert Read(g[i].1, UploadImage) == LastPath(rs, key, UploadImage);
    }
  }

  /** The grouped rows, one per distinct key in order of first appearance. */
  lemma {:induction false} GroupRows(rs: seq<Record>)
    requires forall k :: 0 <= k < |rs| ==> |rs[k].fullPath| > 0 && |rs[k].info.time| == 14
    ensures RowsFor(rs, Rows(rs))
  {
    var g := GroupAll(rs);
    var rows := Rows(rs);
    GroupOrder(rs);
    assert |Keys(g)| == |g|;
    forall i | 0 <= i < |rows| ensures RowOf(rs, FirstOccurrences(KeysOf(rs))[i], rows[i]) {
      RowIsGroup(rs, i);
      assert Keys(g)[i] == g[i].0;
    }
  }

  /** What the service returns for a folder listing: one row per distinct
      "{current_time}_{idx}" in order of first appearance in the sorted
      listing, each row holding that index and the last path of each kind. */
  lemma GenerateDataRows(directory: string, files: seq<string>)
    ensures RowsFor(Records(directory, Sort(files)), GenerateData(directory, Some(files)).value)
  {
    RecordsShape(directory, Sort(files));
    GroupRows(Records(directory, Sort(files)));
  }

  /** `rows` holds one row per distinct key of `rs`, in order of first
      appearance. */
  predicate RowsFor(rs: seq<Record>, rows: seq<Group>) {
    var keys := FirstOccurrences(KeysOf(rs));
    |rows| == |keys| && forall i :: 0 <= i < |rows| ==> RowOf(rs, keys[i], rows[i])
  }

  /** A row for `key`: the index of a record carrying the key and, in each
      field, the last path of that kind among those records. */
  predicate RowOf(rs: seq<Record>, key: string, row: Group) {
    && (exists k :: 0 <= k < |rs| && GroupKey(rs[k]) == key && row.index == rs[k].info.idx)
    && row.uploadImage == LastPath(rs, key, UploadImage)
    && row.bestShot == LastPath(rs, key, BestShot)
    && row.frontView == LastPath(rs, key, FrontView)
  }
}
