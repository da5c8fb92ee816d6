/** Rotation of the log file into numbered archives, on a file system seen as a map from paths to contents. */
module Rotater {
  import opened Options
  import opened ArchiveNames
  import opened Glob
  import AL = ArrayList

  // The file system.

  /** The files, and how many of them a rename has replaced so far. */
  datatype Disk<T> = Disk(files: map<string, T>, replaced: nat)

  function Unlinked<T>(d: Disk<T>, p: string): Option<Disk<T>> {
    if p in d.files then Some(Disk(d.files - {p}, d.replaced)) else None
  }

  function Renamed<T>(d: Disk<T>, from: string, to: string): Option<Disk<T>> {
    if from in d.files then
      Some(Disk((d.files - {from})[to := d.files[from]],
                d.replaced + if from != to && to in d.files then 1 else 0))
    else None
  }

  class FileSystem<T> {
    var disk: Disk<T>

    constructor (files: map<string, T>)
      ensures disk == Disk(files, 0)
    {
      disk := Disk(files, 0);
    }

    method Unlink(p: string) returns (ok: bool)
      modifies this
      ensures ok == Unlinked(old(disk), p).Some?
      ensures disk == if ok then Unlinked(old(disk), p).value else old(disk)
    {
      ok := p in disk.files;
      if ok {
        disk := Disk(disk.files - {p}, disk.replaced);
      }
    }

    method Rename(from: string, to: string) returns (ok: bool)
      modifies this
      ensures ok == Renamed(old(disk), from, to).Some?
      ensures disk == if ok then Renamed(old(disk), from, to).value else old(disk)
    {
      ok := from in disk.files;
      if ok {
        var others := disk.files - {from};
        var extra := if from != to && to in disk.files then 1 else 0;
        disk := Disk(others[to := disk.files[from]], disk.replaced + extra);
      }
    }

    /** A program writes the log file. */
    method Write(p: string, x: T)
      modifies this
      ensures disk == Disk(old(disk.files)[p := x], old(disk.replaced))
    {
      disk := Disk(disk.files[p := x], disk.replaced);
    }

    /** The paths of the files that match the pattern of the archives, in some order. */
    method List(c: Naming) returns (paths: seq<string>)
      ensures GlobResult(c, disk.files, paths)
    {
      paths := [];
      var left := disk.files.Keys;
      while left != {}
        invariant left <= disk.files.Keys
        invariant forall i :: 0 <= i < |paths| ==>
                    paths[i] in disk.files && paths[i] !in left && Globbed(c, paths[i])
        invariant forall p :: p in disk.files && p !in left && Globbed(c, p) ==> p in paths
        invariant forall i, j :: 0 <= i < j < |paths| ==> paths[i] != paths[j]
        decreases |left|
      {
        var p :| p in left;
        left := left - {p};
        if Globbed(c, p) {
          paths := paths + [p];
        }
      }
    }
  }

  // The list of archives.

  predicate FileCmp(a: File, b: File) {
    a.index > b.index
  }

  /** The sorted list of all archives on disk. */
  ghost predicate Lists<T>(s: Scheme, files: map<string, T>, items: seq<File>) {
    && AL.Ascending(items, FileCmp)
    && DistinctFiles(items)
    && (forall f :: f in items <==> f.path in files && s.read(f.path) == Some(f))
  }

  /** What glob may return, in any order; a directory is marked with a slash. */
  ghost predicate GlobResult<T>(c: Naming, files: map<string, T>, paths: seq<string>) {
    && (forall i :: 0 <= i < |paths| ==> EndsInSlash(paths[i]) || (paths[i] in files && Globbed(c, paths[i])))
    && (forall p :: p in files && Globbed(c, p) ==> p in paths)
    && (forall i, j :: 0 <= i < j < |paths| ==> paths[i] != paths[j])
  }

  /** What CheckNew makes of a path. */
  function Reader(c: Naming): string -> Option<File> {
    p => if p == "" then None else CheckNew(c, p)
  }

  /** The sorted list of what is made of some paths. */
  ghost predicate Checked(read: string -> Option<File>, paths: seq<string>, items: seq<File>) {
    && AL.Ascending(items, FileCmp) && DistinctFiles(items)
    && forall f: File :: f in items <==> f.path in paths && read(f.path) == Some(f)
  }

  lemma CheckOne(read: string -> Option<File>, paths: seq<string>, i: nat, items: seq<File>, k: nat, f: File)
    requires i < |paths| && f.path == paths[i] && read(paths[i]) == Some(f)
    requires forall j :: 0 <= j < i ==> paths[j] != paths[i]
    requires Checked(read, paths[..i], items) && AL.InsertsAt(items, FileCmp, f, k)
    ensures Checked(read, paths[..i + 1], AL.Inserted(items, k, f))
  {
    assert paths[..i + 1] == paths[..i] + [paths[i]];
    assert f !in items;
    AL.InsertKeepsOrder(items, FileCmp, f, k);
    InsertedMembers(items, k, f);
  }

  lemma CheckNone(read: string -> Option<File>, paths: seq<string>, i: nat, items: seq<File>)
    requires i < |paths| && read(paths[i]) == None && Checked(read, paths[..i], items)
    ensures Checked(read, paths[..i + 1], items)
  {
    assert paths[..i + 1] == paths[..i] + [paths[i]];
  }

  /** zlog_rotater_add_archive_files: the archives in order of their numbers, whatever the order of the glob. */
  method AddArchiveFiles<T>(c: Naming, ghost files: map<string, T>, paths: seq<string>) returns (list: AL.List<File>)
    requires GlobResult(c, files, paths)
    ensures fresh(list) && fresh(list.slots) && list.Valid() && list.Full()
    ensures Lists(SchemeOf(c), files, list.Items())
  {
    list := new AL.List();
    var i := 0;
    while i < |paths|
      invariant 0 <= i <= |paths|
      invariant fresh(list) && fresh(list.slots) && list.Valid() && list.Full()
      invariant Checked(Reader(c), paths[..i], list.Items())
    {
      var file := CheckNew(c, paths[i]);
      if file.Some? {
        ghost var was := list.Items();
        ghost var k := list.SortAdd(FileCmp, file.value);
        CheckOne(Reader(c), paths, i, was, k, file.value);
      } else {
        CheckNone(Reader(c), paths, i, list.Items());
      }
      i := i + 1;
    }
    assert paths[..i] == paths;
    CheckedIsRead(c, files, paths);
  }

  lemma CheckedIsRead<T>(c: Naming, files: map<string, T>, paths: seq<string>)
    requires GlobResult(c, files, paths)
    ensures forall f: File :: f.path in paths && Reader(c)(f.path) == Some(f) <==>
                        f.path in files && SchemeOf(c).read(f.path) == Some(f)
  {
  }

  lemma InsertedMembers(s: seq<File>, k: nat, x: File)
    requires k <= |s| && x !in s && DistinctFiles(s)
    ensures DistinctFiles(AL.Inserted(s, k, x))
    ensures forall f :: f in AL.Inserted(s, k, x) <==> f in s || f == x
  {
    assert s == s[..k] + s[k..];
  }

  // Rolling: archive i becomes archive i + 1, the log file archive 0.

  /** What became of an attempt, and the disk it leaves. */
  datatype Outcome<T> = Outcome(ok: bool, disk: Disk<T>)

  function OrFailed<T>(after: Option<Disk<T>>, before: Disk<T>): Outcome<T> {
    match after case Some(d) => Outcome(true, d) case None => Outcome(false, before)
  }

  /** Rename unless the new path is too long. */
  function Moved<T>(d: Disk<T>, from: string, to: string): Option<Disk<T>> {
    if |to| > MAXLEN_PATH then None else Renamed(d, from, to)
  }

  function RollOne<T>(s: Scheme, max: int, f: File, i: nat, d: Disk<T>): Option<Disk<T>> {
    if max > 0 && i >= max - 1 then Unlinked(d, f.path) else Moved(d, f.path, s.path(i + 1))
  }

  /** The archives in items[..i] are still to be moved. */
  function RollFrom<T>(s: Scheme, max: int, items: seq<File>, i: nat, d: Disk<T>): Outcome<T>
    requires i <= |items|
  {
    if i == 0 then OrFailed(Moved(d, s.base, s.path(0)), d)
    else
      match RollOne(s, max, items[i - 1], i - 1, d)
      case None => Outcome(false, d)
      case Some(e) => RollFrom(s, max, items, i - 1, e)
  }

  method Move<T>(fs: FileSystem<T>, from: string, to: string) returns (ok: bool)
    modifies fs
    ensures ok == Moved(old(fs.disk), from, to).Some?
    ensures fs.disk == if ok then Moved(old(fs.disk), from, to).value else old(fs.disk)
  {
    if |to| > MAXLEN_PATH {
      return false;
    }
    ok := fs.Rename(from, to);
  }

  /** zlog_rotater_roll_files */
  method RollFiles<T>(c: Naming, max: int, list: AL.List<File>, fs: FileSystem<T>) returns (ok: bool)
    requires list.Valid() && list.Full()
    modifies fs
    ensures Outcome(ok, fs.disk) == RollFrom(SchemeOf(c), max, list.Items(), |list.Items()|, old(fs.disk))
  {
    ghost var items := list.Items();
    var i := list.len;
    while i > 0
      invariant 0 <= i <= list.len && list.Valid() && list.Full() && list.Items() == items
      invariant RollFrom(SchemeOf(c), max, items, i, fs.disk)
             == RollFrom(SchemeOf(c), max, items, |items|, old(fs.disk))
    {
      var file := list.slots[i - 1].value;
      if max > 0 && i - 1 >= max - 1 {
        ok := fs.Unlink(file.path);
      } else {
        ok := Move(fs, file.path, Path(c, i));
      }
      if !ok {
        return;
      }
      i := i - 1;
    }
    ok := Move(fs, c.base, Path(c, 0));
  }

  function At<T>(files: map<string, T>, p: string): Option<T> {
    if p in files then Some(files[p]) else None
  }

  function Archive(s: Scheme, i: nat): File {
    File(s.index(i), s.path(i))
  }

  /** The archives on disk are exactly 0 to |a| - 1, and archive i holds a[i]. */
  ghost predicate Holds<T>(s: Scheme, files: map<string, T>, a: seq<T>) {
    && (forall i :: 0 <= i < |a| ==> At(files, s.path(i)) == Some(a[i]))
    && (forall p :: p in files && s.read(p).Some? ==> exists i: nat :: i < |a| && p == s.path(i))
  }

  /** Every path that a rotation of n archives may make is short enough. */
  ghost predicate Short(s: Scheme, n: nat) {
    forall j: nat :: j <= n ==> |s.path(j)| <= MAXLEN_PATH
  }

  ghost predicate Below(s: Scheme, n: nat, f: File) {
    exists i: nat :: i < n && f == Archive(s, i)
  }

  ghost predicate DistinctFiles(items: seq<File>) {
    forall i, j :: 0 <= i < j < |items| ==> items[i] != items[j]
  }

  ghost function Number(s: Scheme, n: nat, f: File): (i: nat)
    requires Below(s, n, f)
    ensures i < n && f == Archive(s, i)
  {
    var i: nat :| i < n && f == Archive(s, i);
    i
  }

  lemma ListedIsBelow<T>(s: Scheme, files: map<string, T>, a: seq<T>, items: seq<File>, k: nat)
    requires Sound(s) && Short(s, |a|) && Holds(s, files, a) && Lists(s, files, items) && k < |items|
    ensures Below(s, |a|, items[k])
  {
    assert items[k] in items;
    var i: nat :| i < |a| && items[k].path == s.path(i);
    assert items[k] == Archive(s, i);
  }

  lemma ArchiveIsListed<T>(s: Scheme, files: map<string, T>, a: seq<T>, items: seq<File>, i: nat)
    requires Sound(s) && Short(s, |a|) && Holds(s, files, a) && Lists(s, files, items) && i < |a|
    ensures Has(items, Archive(s, i))
  {
    assert At(files, s.path(i)).Some?;
    assert Archive(s, i) in items;
  }

  ghost predicate Has(items: seq<File>, f: File) {
    exists k :: 0 <= k < |items| && items[k] == f
  }

  /** A contiguous set of archives is listed from 0 on. */
  lemma ListIsContiguous<T>(s: Scheme, files: map<string, T>, a: seq<T>, items: seq<File>)
    requires Sound(s) && Short(s, |a|) && Holds(s, files, a) && Lists(s, files, items)
    ensures |items| == |a| && forall i :: 0 <= i < |a| ==> items[i] == Archive(s, i)
  {
    var n := |a|;
    forall k: nat | k < |items| ensures Below(s, n, items[k]) {
      ListedIsBelow(s, files, a, items, k);
    }
    forall i: nat | i < n ensures Has(items, Archive(s, i)) {
      ArchiveIsListed(s, files, a, items, i);
    }
    var numbers := seq(|items|, k requires 0 <= k < |items| => Number(s, n, items[k]));
    ArchivesInOrder(s, items, numbers, n);
  }

  lemma ArchivesInOrder(s: Scheme, items: seq<File>, numbers: seq<nat>, n: nat)
    requires Sound(s) && AL.Ascending(items, FileCmp) && DistinctFiles(items)
    requires |numbers| == |items|
    requires forall k :: 0 <= k < |items| ==> numbers[k] < n && items[k] == Archive(s, numbers[k])
    requires forall i: nat :: i < n ==> Has(items, Archive(s, i))
    ensures |items| == n && forall i :: 0 <= i < n ==> items[i] == Archive(s, i)
  {
    forall j, k | 0 <= j < k < |numbers| ensures numbers[j] < numbers[k] {
      assert !FileCmp(items[j], items[k]) && items[j] != items[k];
    }
    forall i: nat | i < n ensures i in numbers {
      assert Has(items, Archive(s, i));
      var k :| 0 <= k < |items| && items[k] == Archive(s, i);
      assert numbers[k] == i;
    }
    AllBelow(numbers, n);
  }

  lemma LargestIsLast(numbers: seq<nat>, x: nat, top: nat)
    requires forall j, k :: 0 <= j < k < |numbers| ==> numbers[j] < numbers[k]
    requires forall k :: 0 <= k < |numbers| ==> numbers[k] <= top
    requires x < |numbers| && numbers[x] == top
    ensures x == |numbers| - 1
  {
    var m := |numbers| - 1;
    assert numbers[m] <= numbers[x];
  }

  lemma {:induction false} AllBelow(numbers: seq<nat>, n: nat)
    requires forall j, k :: 0 <= j < k < |numbers| ==> numbers[j] < numbers[k]
    requires forall k :: 0 <= k < |numbers| ==> numbers[k] < n
    requires forall i: nat :: i < n ==> i in numbers
    ensures |numbers| == n && forall i :: 0 <= i < n ==> numbers[i] == i
  {
    if numbers == [] {
      var zero: nat := 0;
      assert zero < n ==> zero in numbers;
    } else {
      var m := |numbers| - 1;
      assert numbers[0] < n;
      var top: nat := n - 1;
      assert top in numbers;
      var x :| 0 <= x < |numbers| && numbers[x] == top;
      LargestIsLast(numbers, x, top);
      var front := numbers[..m];
      forall i: nat | i < n - 1 ensures i in front {
        assert i in numbers;
        var k :| 0 <= k < |numbers| && numbers[k] == i;
        assert front[k] == i;
      }
      AllBelow(front, n - 1);
      assert forall i :: 0 <= i < n - 1 ==> numbers[i] == front[i];
    }
  }

  /** How many of n archives stay. */
  function Kept(max: int, n: nat): nat {
    if max > 0 && n > max then max else n
  }

  /** The archives after one more log x. */
  function Rolled<T>(max: int, x: T, a: seq<T>): (r: seq<T>)
    ensures |r| == Kept(max, |a| + 1) && r[0] == x
    ensures forall i :: 1 <= i < |r| ==> r[i] == a[i - 1]
  {
    ([x] + a)[..Kept(max, |a| + 1)]
  }

  /** Archive j while archives 0 to i - 1 are still to be moved. */
  function MidRoll<T>(max: int, a: seq<T>, i: nat, j: nat): Option<T>
    requires i <= |a|
  {
    if j < i then Some(a[j])
    else if j == i || j > |a| || (max > 0 && j >= max) then None
    else Some(a[j - 1])
  }

  ghost predicate Rolling<T>(s: Scheme, max: int, a: seq<T>, i: nat, files: map<string, T>, before: map<string, T>)
    requires i <= |a|
  {
    && (forall j: nat :: j <= |a| ==> At(files, s.path(j)) == MidRoll(max, a, i, j))
    && (forall p :: Other(s, |a|, p) ==> At(files, p) == At(before, p))
  }

  /** Not one of the archives 0 to n. */
  ghost predicate Other(s: Scheme, n: nat, p: string) {
    forall j: nat :: j <= n ==> p != s.path(j)
  }

  lemma PathsApart(s: Scheme, i: nat, j: nat)
    requires Sound(s)
    ensures s.path(i) == s.path(j) <==> i == j
  {
    assert i < j || j < i ==> s.path(i) != s.path(j);
  }

  lemma RollOneMoves<T>(s: Scheme, max: int, a: seq<T>, i: nat, d: Disk<T>, before: map<string, T>)
    requires Short(s, |a|) && 0 < i <= |a| && Rolling(s, max, a, i, d.files, before)
    ensures var e := RollOne(s, max, Archive(s, i - 1), i - 1, d);
      && e.Some? && e.value.replaced == d.replaced
      && e.value.files == if max > 0 && i >= max then d.files - {s.path(i - 1)}
                          else (d.files - {s.path(i - 1)})[s.path(i) := a[i - 1]]
  {
    assert At(d.files, s.path(i - 1)) == Some(a[i - 1]) && At(d.files, s.path(i)) == None;
  }

  lemma RollOneAt<T>(s: Scheme, max: int, a: seq<T>, i: nat, d: Disk<T>, before: map<string, T>, j: nat)
    requires Sound(s) && Short(s, |a|) && 0 < i <= |a| && Rolling(s, max, a, i, d.files, before) && j <= |a|
    ensures var e := RollOne(s, max, Archive(s, i - 1), i - 1, d);
      e.Some? && At(e.value.files, s.path(j)) == MidRoll(max, a, i - 1, j)
  {
    RollOneMoves(s, max, a, i, d, before);
    PathsApart(s, i - 1, j);
    PathsApart(s, i, j);
    assert At(d.files, s.path(j)) == MidRoll(max, a, i, j);
  }

  lemma RollOneStep<T>(s: Scheme, max: int, a: seq<T>, i: nat, d: Disk<T>, before: map<string, T>)
    requires Sound(s) && Short(s, |a|) && 0 < i <= |a| && Rolling(s, max, a, i, d.files, before)
    ensures var e := RollOne(s, max, Archive(s, i - 1), i - 1, d);
      && e.Some? && e.value.replaced == d.replaced
      && Rolling(s, max, a, i - 1, e.value.files, before)
  {
    RollOneMoves(s, max, a, i, d, before);
    var e := RollOne(s, max, Archive(s, i - 1), i - 1, d).value;
    forall j: nat | j <= |a| ensures At(e.files, s.path(j)) == MidRoll(max, a, i - 1, j) {
      RollOneAt(s, max, a, i, d, before, j);
    }
    forall p | Other(s, |a|, p) ensures At(e.files, p) == At(before, p) {
      assert p != s.path(i - 1) && p != s.path(i);
    }
  }

  lemma {:induction false} RollAll<T>(s: Scheme, max: int, a: seq<T>, items: seq<File>, i: nat, d: Disk<T>, before: map<string, T>)
    requires Sound(s) && Short(s, |a|) && i <= |a| && Rolling(s, max, a, i, d.files, before)
    requires |items| == |a| && forall j :: 0 <= j < |a| ==> items[j] == Archive(s, j)
    requires s.base in before
    ensures var r := RollFrom(s, max, items, i, d);
      && r.ok && r.disk.replaced == d.replaced && s.base !in r.disk.files
      && (forall p :: Other(s, |a|, p) && p != s.base ==> At(r.disk.files, p) == At(before, p))
      && At(r.disk.files, s.path(0)) == Some(before[s.base])
      && (forall j: nat :: 0 < j <= |a| ==> At(r.disk.files, s.path(j)) == MidRoll(max, a, 0, j))
  {
    if i == 0 {
      assert Other(s, |a|, s.base);
      assert At(d.files, s.base) == At(before, s.base);
      assert At(d.files, s.path(0)) == MidRoll(max, a, 0, 0);
    } else {
      RollOneStep(s, max, a, i, d, before);
      RollAll(s, max, a, items, i - 1, RollOne(s, max, items[i - 1], i - 1, d).value, before);
    }
  }

  /**
   * Rolling a contiguous set of archives always succeeds; the log file becomes archive 0, the others move up
   * by one, those beyond max are gone, no rename replaces a file, and no other file is touched.
   */
  lemma RollMovesUp<T>(s: Scheme, max: int, a: seq<T>, items: seq<File>, d: Disk<T>)
    requires Sound(s) && Short(s, |a|) && s.base in d.files
    requires Holds(s, d.files, a) && Lists(s, d.files, items)
    ensures var r := RollFrom(s, max, items, |items|, d);
      && r.ok && r.disk.replaced == d.replaced && s.base !in r.disk.files
      && Holds(s, r.disk.files, Rolled(max, d.files[s.base], a))
      && forall p :: s.read(p).None? && p != s.base ==> At(r.disk.files, p) == At(d.files, p)
  {
    ListIsContiguous(s, d.files, a, items);
    assert At(d.files, s.path(|a|)) == None;
    RollAll(s, max, a, items, |a|, d, d.files);
    var e := RollFrom(s, max, items, |items|, d).disk;
    var all := Rolled(max, d.files[s.base], a);
    forall i | 0 <= i < |all| ensures At(e.files, s.path(i)) == Some(all[i]) {
      assert i > 0 ==> At(e.files, s.path(i)) == MidRoll(max, a, 0, i);
    }
    forall p | p in e.files && s.read(p).Some? ensures exists i: nat :: i < |all| && p == s.path(i) {
      RolledIsArchive(s, max, a, d, e, p);
    }
    forall p | s.read(p).None? ensures Other(s, |a|, p) {
    }
  }

  lemma RolledIsArchive<T>(s: Scheme, max: int, a: seq<T>, d: Disk<T>, e: Disk<T>, p: string)
    requires Sound(s) && Short(s, |a|) && Holds(s, d.files, a)
    requires forall q :: Other(s, |a|, q) && q != s.base ==> At(e.files, q) == At(d.files, q)
    requires forall j: nat :: 0 < j <= |a| ==> At(e.files, s.path(j)) == MidRoll(max, a, 0, j)
    requires p in e.files && s.read(p).Some?
    ensures exists i: nat :: i < Kept(max, |a| + 1) && p == s.path(i)
  {
    assert Other(s, |a|, p) ==> At(e.files, p) == At(d.files, p);
    var j: nat :| j <= |a| && p == s.path(j);
    assert At(e.files, s.path(j)).Some?;
  }

  /** An archive 0 that the list lacks is replaced: the log that it held is lost. */
  lemma UnlistedArchiveIsLost<T>(s: Scheme, max: int, d: Disk<T>)
    requires s.base in d.files && s.path(0) in d.files && s.path(0) != s.base && |s.path(0)| <= MAXLEN_PATH
    ensures var r := RollFrom(s, max, [], 0, d);
      && r.ok && r.disk.replaced == d.replaced + 1
      && r.disk.files == (d.files - {s.base})[s.path(0) := d.files[s.base]]
  {
  }

  /** So the second rotation of a log file whose name has a character in brackets loses the log of the first. */
  lemma BracketsLoseLogs<T>(a: string, x: char, b: string, older: T, newer: T, max: int)
    requires Plain(a) && Plain(b) && Plain([x]) && x !in "!^]/-"
    requires |a| + |b| + 5 <= MAXLEN_PATH
    ensures var c := DefaultNaming(a + ("[" + [x] + "]" + b));
      var d := Disk(map[c.base := newer, Path(c, 0) := older], 0);
      && Lists(SchemeOf(c), d.files, [])
      && RollFrom(SchemeOf(c), max, [], 0, d) == Outcome(true, Disk(map[Path(c, 0) := newer], 1))
  {
    var c := DefaultNaming(a + ("[" + [x] + "]" + b));
    BracketsHideArchives(a, x, b, 0);
    assert |Path(c, 0)| == |c.base| + 2;
    UnlistedArchiveIsLost(SchemeOf(c), max, Disk(map[c.base := newer, Path(c, 0) := older], 0));
  }

  // Runs of rolling rotations: each time a log x was written.

  ghost predicate RollStep<T(!new)>(s: Scheme, max: int, d: Disk<T>, x: T, e: Disk<T>) {
    var full := Disk(d.files[s.base := x], d.replaced);
    exists items :: Lists(s, full.files, items) && RollFrom(s, max, items, |items|, full).disk == e
  }

  ghost predicate RollRun<T(!new)>(s: Scheme, max: int, ds: seq<Disk<T>>, xs: seq<T>) {
    |ds| == |xs| + 1 && forall k :: 0 <= k < |xs| ==> RollStep(s, max, ds[k], xs[k], ds[k + 1])
  }

  /** The archives, newest first, after the logs xs. */
  function Newest<T>(max: int, a: seq<T>, xs: seq<T>): seq<T> {
    if xs == [] then a else Rolled(max, xs[|xs| - 1], Newest(max, a, xs[..|xs| - 1]))
  }

  /** Archive i is the i-th newest log, and at most max remain when it is positive. */
  lemma {:induction false} NewestFirst<T>(max: int, a: seq<T>, xs: seq<T>)
    ensures var r := Newest(max, a, xs);
      && |r| == (if xs == [] || max <= 0 || |a| + |xs| <= max then |a| + |xs| else max)
      && forall i :: 0 <= i < |r| ==> r[i] == if i < |xs| then xs[|xs| - 1 - i] else a[i - |xs|]
  {
    if xs != [] {
      var k := |xs| - 1;
      var before, r := Newest(max, a, xs[..k]), Newest(max, a, xs);
      NewestFirst(max, a, xs[..k]);
      assert r == Rolled(max, xs[k], before);
      forall i | 1 <= i < |r| ensures r[i] == if i < |xs| then xs[|xs| - 1 - i] else a[i - |xs|] {
        assert r[i] == before[i - 1];
      }
    }
  }

  function Most(max: int, n: nat, k: nat): nat {
    if max > 0 then if n > max then n else max else n + k
  }

  lemma LogKeepsArchives<T>(s: Scheme, files: map<string, T>, x: T, a: seq<T>)
    requires Sound(s) && Holds(s, files, a)
    ensures Holds(s, files[s.base := x], a)
  {
    assert forall i :: 0 <= i < |a| ==> At(files[s.base := x], s.path(i)) == At(files, s.path(i));
  }

  lemma RollOnce<T>(s: Scheme, max: int, a: seq<T>, d: Disk<T>, x: T, items: seq<File>)
    requires Sound(s) && Short(s, |a|) && Holds(s, d.files, a) && Lists(s, d.files[s.base := x], items)
    ensures var r := RollFrom(s, max, items, |items|, Disk(d.files[s.base := x], d.replaced));
      r.ok && r.disk.replaced == d.replaced && Holds(s, r.disk.files, Rolled(max, x, a))
  {
    LogKeepsArchives(s, d.files, x, a);
    RollMovesUp(s, max, a, items, Disk(d.files[s.base := x], d.replaced));
  }

  lemma RollStepMovesUp<T(!new)>(s: Scheme, max: int, a: seq<T>, d: Disk<T>, x: T, e: Disk<T>)
    requires Sound(s) && Short(s, |a|) && Holds(s, d.files, a) && RollStep(s, max, d, x, e)
    ensures Holds(s, e.files, Rolled(max, x, a)) && e.replaced == d.replaced
  {
    var full := Disk(d.files[s.base := x], d.replaced);
    var items :| Lists(s, full.files, items) && RollFrom(s, max, items, |items|, full).disk == e;
    RollOnce(s, max, a, d, x, items);
  }

  lemma RollRunFront<T(!new)>(s: Scheme, max: int, ds: seq<Disk<T>>, xs: seq<T>)
    requires RollRun(s, max, ds, xs) && xs != []
    ensures var k := |xs| - 1;
      RollRun(s, max, ds[..k + 1], xs[..k]) && RollStep(s, max, ds[k], xs[k], ds[k + 1])
  {
  }

  /** After any run of rotations the archives are the newest logs in order, and no rename replaced a file. */
  lemma {:induction false} RollRunKeepsNewest<T(!new)>(s: Scheme, max: int, a: seq<T>, ds: seq<Disk<T>>, xs: seq<T>)
    requires Sound(s) && RollRun(s, max, ds, xs) && Holds(s, ds[0].files, a)
    requires Short(s, Most(max, |a|, |xs|))
    ensures Holds(s, ds[|xs|].files, Newest(max, a, xs)) && ds[|xs|].replaced == ds[0].replaced
    decreases |xs|
  {
    if xs != [] {
      var k := |xs| - 1;
      RollRunFront(s, max, ds, xs);
      RollRunKeepsNewest(s, max, a, ds[..k + 1], xs[..k]);
      var before := Newest(max, a, xs[..k]);
      assert |before| <= Most(max, |a|, |xs|) by {
        NewestFirst(max, a, xs[..k]);
      }
      RollStepMovesUp(s, max, before, ds[k], xs[k], ds[k + 1]);
    }
  }

  // Sequence mode: the log file gets a new number, the archives keep theirs.

  /** How many archives are unlinked: those before the last max. */
  function Excess(max: int, n: nat): nat {
    if max > 0 && n > max then n - max else 0
  }

  /** Unlinks items[k..n]. */
  function DropOldest<T>(items: seq<File>, k: nat, n: nat, d: Disk<T>): Outcome<T>
    requires k <= n <= |items|
    decreases n - k
  {
    if k == n then Outcome(true, d)
    else
      match Unlinked(d, items[k].path)
      case None => Outcome(false, d)
      case Some(e) => DropOldest(items, k + 1, n, e)
  }

  function NextNumber(items: seq<File>): nat {
    if |items| == 0 then 0
    else
      var last := items[|items| - 1].index;
      (if last > |items| - 1 then last else |items| - 1) + 1
  }

  function SeqFrom<T>(s: Scheme, max: int, items: seq<File>, d: Disk<T>): Outcome<T> {
    var r := DropOldest(items, 0, Excess(max, |items|), d);
    if r.ok then OrFailed(Moved(r.disk, s.base, s.path(NextNumber(items))), r.disk) else r
  }

  method UnlinkOldest<T>(max: int, list: AL.List<File>, fs: FileSystem<T>) returns (ok: bool)
    requires list.Valid() && list.Full()
    modifies fs
    ensures Outcome(ok, fs.disk) == DropOldest(list.Items(), 0, Excess(max, list.len), old(fs.disk))
  {
    ghost var items, n := list.Items(), Excess(max, list.len);
    var i := 0;
    while i < list.len
      invariant 0 <= i <= list.len && list.Valid() && list.Full() && list.Items() == items
      invariant DropOldest(items, if i < n then i else n, n, fs.disk) == DropOldest(items, 0, n, old(fs.disk))
    {
      if max > 0 && i < list.len - max {
        ok := fs.Unlink(list.slots[i].value.path);
        if !ok {
          return;
        }
      }
      i := i + 1;
    }
    ok := true;
  }

  method FindNextNumber(list: AL.List<File>) returns (j: nat)
    requires list.Valid() && list.Full()
    ensures j == NextNumber(list.Items())
  {
    if list.len > 0 {
      var last := list.slots[list.len - 1].value.index;
      j := (if last > list.len - 1 then last else list.len - 1) + 1;
    } else {
      j := 0;
    }
  }

  /** zlog_rotater_seq_files */
  method SeqFiles<T>(c: Naming, max: int, list: AL.List<File>, fs: FileSystem<T>) returns (ok: bool)
    requires list.Valid() && list.Full()
    modifies fs
    ensures Outcome(ok, fs.disk) == SeqFrom(SchemeOf(c), max, list.Items(), old(fs.disk))
  {
    ok := UnlinkOldest(max, list, fs);
    if !ok {
      return;
    }
    var j := FindNextNumber(list);
    ok := Move(fs, c.base, Path(c, j));
  }

  /** The new archive is numbered above all others, so it comes last and replaces none. */
  lemma NextIsLargest<T>(s: Scheme, items: seq<File>, files: map<string, T>)
    requires Sound(s) && Lists(s, files, items)
    requires |s.path(NextNumber(items))| <= MAXLEN_PATH
    ensures forall k :: 0 <= k < |items| ==> items[k].index < NextNumber(items) <= s.index(NextNumber(items))
    ensures s.path(NextNumber(items)) !in files
  {
    var j := NextNumber(items);
    forall k | 0 <= k < |items| ensures items[k].index < j {
      var m := |items| - 1;
      assert k < m ==> !FileCmp(items[k], items[m]);
    }
    if s.path(j) in files {
      assert Archive(s, j) in items;
    }
  }

  lemma {:induction false} DropOldestUnlinks<T>(items: seq<File>, k: nat, n: nat, d: Disk<T>)
    requires k <= n <= |items|
    requires forall i, j :: 0 <= i < j < |items| ==> items[i].path != items[j].path
    requires forall i :: k <= i < n ==> items[i].path in d.files
    ensures var r := DropOldest(items, k, n, d);
      && r.ok && r.disk.replaced == d.replaced
      && (forall i :: k <= i < n ==> items[i].path !in r.disk.files)
      && (forall p :: (forall i :: k <= i < n ==> p != items[i].path) ==> At(r.disk.files, p) == At(d.files, p))
    decreases n - k
  {
    if k < n {
      var e := Unlinked(d, items[k].path).value;
      DropOldestUnlinks(items, k + 1, n, e);
      var r := DropOldest(items, k + 1, n, e);
      assert At(r.disk.files, items[k].path) == At(e.files, items[k].path);
    }
  }

  /** The list after a rotation in sequence mode. */
  function Appended(s: Scheme, max: int, items: seq<File>): seq<File> {
    items[Excess(max, |items|)..] + [Archive(s, NextNumber(items))]
  }

  lemma ListedPathsDiffer<T>(s: Scheme, files: map<string, T>, items: seq<File>)
    requires Lists(s, files, items)
    ensures forall i, j :: 0 <= i < j < |items| ==> items[i].path != items[j].path
    ensures forall i :: 0 <= i < |items| ==> items[i].path in files && s.read(items[i].path) == Some(items[i])
  {
    assert forall i :: 0 <= i < |items| ==> items[i] in items;
  }

  /** Neither the log file nor its new archive nor one of the archives before the last max. */
  ghost predicate Untouched(s: Scheme, max: int, items: seq<File>, p: string) {
    && p != s.base && p != s.path(NextNumber(items))
    && forall i :: 0 <= i < Excess(max, |items|) ==> p != items[i].path
  }

  /**
   * In sequence mode the log file becomes an archive numbered above all others; of those the last max keep
   * their names and contents when max is positive; no rename replaces a file, and no other file is touched.
   */
  lemma SeqAppends<T>(s: Scheme, max: int, items: seq<File>, d: Disk<T>)
    requires Sound(s) && Lists(s, d.files, items) && s.base in d.files
    requires |s.path(NextNumber(items))| <= MAXLEN_PATH
    ensures var r := SeqFrom(s, max, items, d);
      && r.ok && r.disk.replaced == d.replaced && s.base !in r.disk.files
      && At(r.disk.files, s.path(NextNumber(items))) == Some(d.files[s.base])
      && (forall i :: 0 <= i < Excess(max, |items|) ==> items[i].path !in r.disk.files)
      && (forall p :: Untouched(s, max, items, p) ==> At(r.disk.files, p) == At(d.files, p))
  {
    ListedPathsDiffer(s, d.files, items);
    NextIsLargest(s, items, d.files);
    var n := Excess(max, |items|);
    DropOldestUnlinks(items, 0, n, d);
    var e := DropOldest(items, 0, n, d).disk;
    assert At(e.files, s.base) == At(d.files, s.base);
    assert At(e.files, s.path(NextNumber(items))) == None;
  }

  lemma AppendedIsThere<T>(s: Scheme, max: int, items: seq<File>, d: Disk<T>, i: nat)
    requires Sound(s) && Lists(s, d.files, items) && s.base in d.files
    requires |s.path(NextNumber(items))| <= MAXLEN_PATH && i < |Appended(s, max, items)|
    ensures var f, files := Appended(s, max, items)[i], SeqFrom(s, max, items, d).disk.files;
      && s.read(f.path) == Some(f)
      && f.path in files
      && At(files, f.path) == At(d.files, if i < |Appended(s, max, items)| - 1 then f.path else s.base)
  {
    ListedPathsDiffer(s, d.files, items);
    NextIsLargest(s, items, d.files);
    SeqAppends(s, max, items, d);
    var n, all := Excess(max, |items|), Appended(s, max, items);
    if i < |all| - 1 {
      assert all[i] == items[n + i];
      assert Untouched(s, max, items, all[i].path);
    }
  }

  lemma ThereIsAppended<T>(s: Scheme, max: int, items: seq<File>, d: Disk<T>, f: File)
    requires Sound(s) && Lists(s, d.files, items) && s.base in d.files
    requires |s.path(NextNumber(items))| <= MAXLEN_PATH
    requires f.path in SeqFrom(s, max, items, d).disk.files && s.read(f.path) == Some(f)
    ensures f in Appended(s, max, items)
  {
    SeqAppends(s, max, items, d);
    var files := SeqFrom(s, max, items, d).disk.files;
    if f != Archive(s, NextNumber(items)) {
      assert Untouched(s, max, items, f.path);
      assert At(files, f.path) == At(d.files, f.path);
      assert f in items;
      var i :| 0 <= i < |items| && items[i] == f;
      assert Appended(s, max, items)[i - Excess(max, |items|)] == f;
    }
  }

  /** And the list of the archives grows at its end. */
  lemma SeqKeepsList<T>(s: Scheme, max: int, items: seq<File>, d: Disk<T>)
    requires Sound(s) && Lists(s, d.files, items) && s.base in d.files
    requires |s.path(NextNumber(items))| <= MAXLEN_PATH
    ensures Lists(s, SeqFrom(s, max, items, d).disk.files, Appended(s, max, items))
  {
    var all, files := Appended(s, max, items), SeqFrom(s, max, items, d).disk.files;
    NextIsLargest(s, items, d.files);
    forall f: File | f in all ensures f.path in files && s.read(f.path) == Some(f) {
      var i :| 0 <= i < |all| && all[i] == f;
      AppendedIsThere(s, max, items, d, i);
    }
    forall f: File | f.path in files && s.read(f.path) == Some(f) ensures f in all {
      ThereIsAppended(s, max, items, d, f);
    }
  }

  // Runs of rotations in sequence mode.

  ghost predicate SeqStep<T(!new)>(s: Scheme, max: int, d: Disk<T>, x: T, e: Disk<T>) {
    var full := Disk(d.files[s.base := x], d.replaced);
    exists items :: Lists(s, full.files, items) && |s.path(NextNumber(items))| <= MAXLEN_PATH
                    && SeqFrom(s, max, items, full).disk == e
  }

  ghost predicate SeqRun<T(!new)>(s: Scheme, max: int, ds: seq<Disk<T>>, xs: seq<T>) {
    |ds| == |xs| + 1 && forall k :: 0 <= k < |xs| ==> SeqStep(s, max, ds[k], xs[k], ds[k + 1])
  }

  ghost predicate Holding<T>(files: map<string, T>, items: seq<File>, a: seq<T>) {
    |items| == |a| && forall i :: 0 <= i < |a| ==> At(files, items[i].path) == Some(a[i])
  }

  ghost predicate Numbered(items: seq<File>) {
    forall i, j :: 0 <= i < j < |items| ==> items[i].index < items[j].index
  }

  /** The archives have different numbers and hold a in the order of these. */
  ghost predicate InOrder<T>(s: Scheme, files: map<string, T>, a: seq<T>) {
    exists items :: Lists(s, files, items) && Numbered(items) && Holding(files, items, a)
  }

  lemma {:induction false} OneNumberedList(a: seq<File>, b: seq<File>)
    requires Numbered(a) && AL.Ascending(b, FileCmp) && DistinctFiles(b)
    requires forall f :: f in a <==> f in b
    ensures a == b
  {
    if a == [] || b == [] {
      HasFirst(a);
      HasFirst(b);
    } else {
      var m, n := |a| - 1, |b| - 1;
      assert b[n] in b && a[m] in a;
      var i :| 0 <= i < |a| && a[i] == b[n];
      var j :| 0 <= j < |b| && b[j] == a[m];
      LastIsLargest(b, j);
      assert i == m;
      LastDropped(a);
      LastDropped(b);
      var front, back := a[..m], b[..n];
      forall f ensures f in front <==> f in back {
        assert f in a <==> f in b;
      }
      OneNumberedList(front, back);
    }
  }

  lemma LastIsLargest(b: seq<File>, j: nat)
    requires AL.Ascending(b, FileCmp) && j < |b|
    ensures b[j].index <= b[|b| - 1].index
  {
    assert j == |b| - 1 || !FileCmp(b[j], b[|b| - 1]);
  }

  lemma HasFirst(a: seq<File>)
    ensures a == [] || exists f :: f in a
  {
    if a != [] {
      assert a[0] in a;
    }
  }

  lemma LastDropped(a: seq<File>)
    requires a != [] && DistinctFiles(a)
    ensures forall f :: f in a[..|a| - 1] <==> f in a && f != a[|a| - 1]
  {
    assert a == a[..|a| - 1] + [a[|a| - 1]];
  }

  /** The logs kept, oldest first, after one more log x: the rotater leaves one more than max. */
  function Queued<T>(max: int, a: seq<T>, x: T): seq<T> {
    a[Excess(max, |a|)..] + [x]
  }

  lemma SeqQueues<T>(s: Scheme, max: int, items: seq<File>, a: seq<T>, d: Disk<T>)
    requires Sound(s) && Lists(s, d.files, items) && s.base in d.files
    requires |s.path(NextNumber(items))| <= MAXLEN_PATH
    requires Numbered(items) && Holding(d.files, items, a)
    ensures var files, all := SeqFrom(s, max, items, d).disk.files, Appended(s, max, items);
      Lists(s, files, all) && Numbered(all) && Holding(files, all, Queued(max, a, d.files[s.base]))
  {
    SeqKeepsList(s, max, items, d);
    NextIsLargest(s, items, d.files);
    var all, logs := Appended(s, max, items), Queued(max, a, d.files[s.base]);
    var n := Excess(max, |items|);
    forall i | 0 <= i < |all| ensures At(SeqFrom(s, max, items, d).disk.files, all[i].path) == Some(logs[i]) {
      AppendedIsThere(s, max, items, d, i);
      if i < |all| - 1 {
        assert all[i] == items[n + i] && logs[i] == a[n + i];
      }
    }
  }

  /** A log written changes nothing in the archives. */
  lemma LogIsNoArchive<T>(s: Scheme, files: map<string, T>, x: T, items: seq<File>, a: seq<T>)
    requires Sound(s) && Lists(s, files, items) && Holding(files, items, a)
    ensures Lists(s, files[s.base := x], items) && Holding(files[s.base := x], items, a)
  {
    ListedPathsDiffer(s, files, items);
  }

  lemma SeqStepAppends<T(!new)>(s: Scheme, max: int, a: seq<T>, d: Disk<T>, x: T, e: Disk<T>)
    requires Sound(s) && InOrder(s, d.files, a) && SeqStep(s, max, d, x, e)
    ensures InOrder(s, e.files, Queued(max, a, x)) && e.replaced == d.replaced
  {
    var full := Disk(d.files[s.base := x], d.replaced);
    var items :| Lists(s, full.files, items) && |s.path(NextNumber(items))| <= MAXLEN_PATH
      && SeqFrom(s, max, items, full).disk == e;
    var was :| Lists(s, d.files, was) && Numbered(was) && Holding(d.files, was, a);
    LogIsNoArchive(s, d.files, x, was, a);
    assert items == was by {
      OneNumberedList(was, items);
    }
    SeqQueues(s, max, items, a, full);
    assert e.replaced == d.replaced by {
      SeqAppends(s, max, items, full);
    }
  }

  function AllQueued<T>(max: int, a: seq<T>, xs: seq<T>): seq<T> {
    if xs == [] then a else Queued(max, AllQueued(max, a, xs[..|xs| - 1]), xs[|xs| - 1])
  }

  /** The last logs of all, max + 1 of them when max is positive. */
  lemma {:induction false} OldestFirst<T>(max: int, a: seq<T>, xs: seq<T>)
    requires xs != []
    ensures var all := a + xs;
      AllQueued(max, a, xs) == if max > 0 && |all| > max + 1 then all[|all| - (max + 1)..] else all
  {
    var k := |xs| - 1;
    assert xs == xs[..k] + [xs[k]];
    assert a + xs == (a + xs[..k]) + [xs[k]];
    if k > 0 {
      OldestFirst(max, a, xs[..k]);
    } else {
      assert a + xs[..k] == a;
    }
  }

  lemma SeqRunFront<T(!new)>(s: Scheme, max: int, ds: seq<Disk<T>>, xs: seq<T>)
    requires SeqRun(s, max, ds, xs) && xs != []
    ensures var k := |xs| - 1;
      SeqRun(s, max, ds[..k + 1], xs[..k]) && SeqStep(s, max, ds[k], xs[k], ds[k + 1])
  {
  }

  /** After any run in sequence mode the archives are the latest logs, in the order of their numbers. */
  lemma {:induction false} SeqRunKeepsLatest<T(!new)>(s: Scheme, max: int, a: seq<T>, ds: seq<Disk<T>>, xs: seq<T>)
    requires Sound(s) && SeqRun(s, max, ds, xs) && InOrder(s, ds[0].files, a)
    ensures InOrder(s, ds[|xs|].files, AllQueued(max, a, xs)) && ds[|xs|].replaced == ds[0].replaced
    decreases |xs|
  {
    if xs != [] {
      var k := |xs| - 1;
      SeqRunFront(s, max, ds, xs);
      SeqRunKeepsLatest(s, max, a, ds[..k + 1], xs[..k]);
      SeqStepAppends(s, max, AllQueued(max, a, xs[..k]), ds[k], xs[k], ds[k + 1]);
    }
  }

  // The whole rotation.

  /** What a rotation in one of the two modes makes of the disk, with the archives listed. */
  function Rotated<T>(c: Naming, roll: bool, max: int, items: seq<File>, d: Disk<T>): Outcome<T> {
    if roll then RollFrom(SchemeOf(c), max, items, |items|, d) else SeqFrom(SchemeOf(c), max, items, d)
  }

  method MoveFiles<T>(c: Naming, roll: bool, max: int, list: AL.List<File>, fs: FileSystem<T>) returns (ok: bool)
    requires list.Valid() && list.Full()
    modifies fs
    ensures Outcome(ok, fs.disk) == Rotated(c, roll, max, list.Items(), old(fs.disk))
  {
    if roll {
      ok := RollFiles(c, max, list, fs);
    } else {
      ok := SeqFiles(c, max, list, fs);
    }
  }

  /**
   From archives 0 to |a| - 1 with the contents a, rolling makes the log archive 0, moves the others up by one,
   drops those beyond max, replaces no file and touches no other.
   */
  ghost predicate RollsUp<T(!new)>(s: Scheme, max: int, before: Disk<T>, ok: bool, after: Disk<T>)
    requires s.base in before.files
  {
    forall a :: Holds(s, before.files, a) && Short(s, |a|) ==>
      && ok && after.replaced == before.replaced && s.base !in after.files
      && Holds(s, after.files, Rolled(max, before.files[s.base], a))
      && forall p :: s.read(p).None? && p != s.base ==> At(after.files, p) == At(before.files, p)
  }

  /** The least number above all the archives' that is not below their count either. */
  ghost predicate NextIs(items: seq<File>, j: nat) {
    && j >= |items|
    && (forall k :: 0 <= k < |items| ==> items[k].index < j)
    && (j > |items| ==> exists k :: 0 <= k < |items| && items[k].index == j - 1)
  }

  /**
   In sequence mode the last max of the archives stay and the others go, and if all goes well archive j is the
   log; no file is replaced and no other is touched.
   */
  ghost predicate Appends<T>(s: Scheme, max: int, items: seq<File>, j: nat, before: Disk<T>, ok: bool, after: Disk<T>)
    requires s.base in before.files
  {
    && after.replaced == before.replaced
    && (forall i :: 0 <= i < |items| ==>
          At(after.files, items[i].path) == (if max > 0 && i < |items| - max then None else At(before.files, items[i].path)))
    && (ok ==> s.base !in after.files && At(after.files, s.path(j)) == Some(before.files[s.base]))
    && (forall p :: (ok ==> p != s.base && p != s.path(j)) && (forall i :: 0 <= i < |items| ==> p != items[i].path) ==>
          At(after.files, p) == At(before.files, p))
  }

  lemma RollFromRollsUp<T(!new)>(s: Scheme, max: int, items: seq<File>, d: Disk<T>)
    requires Sound(s) && s.base in d.files && Lists(s, d.files, items)
    ensures var r := RollFrom(s, max, items, |items|, d); RollsUp(s, max, d, r.ok, r.disk)
  {
    var r := RollFrom(s, max, items, |items|, d);
    forall a | Holds(s, d.files, a) && Short(s, |a|)
      ensures r.ok && r.disk.replaced == d.replaced && s.base !in r.disk.files
      ensures Holds(s, r.disk.files, Rolled(max, d.files[s.base], a))
      ensures forall p :: s.read(p).None? && p != s.base ==> At(r.disk.files, p) == At(d.files, p)
    {
      RollMovesUp(s, max, a, items, d);
    }
  }

  lemma NextNumberIsNext(items: seq<File>)
    requires AL.Ascending(items, FileCmp)
    ensures NextIs(items, NextNumber(items))
  {
    var j, m := NextNumber(items), |items| - 1;
    forall k | 0 <= k < |items| ensures items[k].index < j {
      assert k < m ==> !FileCmp(items[k], items[m]);
    }
    assert j > |items| ==> items[m].index == j - 1;
  }

  lemma Dropped<T>(s: Scheme, max: int, items: seq<File>, d: Disk<T>)
    requires Sound(s) && s.base in d.files && Lists(s, d.files, items)
    ensures var r := DropOldest(items, 0, Excess(max, |items|), d);
      && r.ok && Appends(s, max, items, NextNumber(items), d, false, r.disk)
      && At(r.disk.files, s.base) == At(d.files, s.base)
  {
    ListedPathsDiffer(s, d.files, items);
    DropOldestUnlinks(items, 0, Excess(max, |items|), d);
  }

  lemma SeqFromAppends<T>(s: Scheme, max: int, items: seq<File>, d: Disk<T>)
    requires Sound(s) && s.base in d.files && Lists(s, d.files, items)
    ensures var r := SeqFrom(s, max, items, d); Appends(s, max, items, NextNumber(items), d, r.ok, r.disk)
  {
    Dropped(s, max, items, d);
    var e, p := DropOldest(items, 0, Excess(max, |items|), d).disk, s.path(NextNumber(items));
    if |p| <= MAXLEN_PATH {
      NextIsLargest(s, items, d.files);
      ListedPathsDiffer(s, d.files, items);
      assert At(e.files, p) == At(d.files, p);
      LogMoved(s, max, items, NextNumber(items), d, e);
    }
  }

  lemma LogMoved<T>(s: Scheme, max: int, items: seq<File>, j: nat, d: Disk<T>, e: Disk<T>)
    requires s.base in d.files && At(e.files, s.base) == At(d.files, s.base)
    requires Appends(s, max, items, j, d, false, e)
    requires s.path(j) !in e.files && s.path(j) != s.base
    requires forall i :: 0 <= i < |items| ==> items[i].path != s.base && items[i].path != s.path(j)
    ensures Appends(s, max, items, j, d, true, Renamed(e, s.base, s.path(j)).value)
  {
  }

  /** What a rotation with the archives listed makes of the files, in either mode. */
  ghost predicate RotatesTo<T(!new)>(c: Naming, roll: bool, max: int, items: seq<File>, before: Disk<T>, ok: bool,
                                     after: Disk<T>)
    requires c.base in before.files
  {
    var s := SchemeOf(c);
    if roll then RollsUp(s, max, before, ok, after)
    else
      exists j: nat :: NextIs(items, j) && (ok <==> |s.path(j)| <= MAXLEN_PATH) && Appends(s, max, items, j, before, ok, after)
  }

  lemma RotatedIsRight<T(!new)>(c: Naming, roll: bool, max: int, items: seq<File>, d: Disk<T>)
    requires Sensible(c) && c.base in d.files && Lists(SchemeOf(c), d.files, items)
    ensures var r := Rotated(c, roll, max, items, d); RotatesTo(c, roll, max, items, d, r.ok, r.disk)
  {
    SchemeIsSound(c);
    if roll {
      RollFromRollsUp(SchemeOf(c), max, items, d);
    } else {
      SeqFromAppends(SchemeOf(c), max, items, d);
      NextNumberIsNext(items);
      Dropped(SchemeOf(c), max, items, d);
    }
  }

  /** zlog_rotater_lsmv: what glob returned is listed, then moved. */
  method Rotate<T(!new)>(c: Naming, roll: bool, max: int, paths: seq<string>, fs: FileSystem<T>)
      returns (ok: bool, ghost items: seq<File>)
    requires GlobResult(c, fs.disk.files, paths)
    modifies fs
    ensures Lists(SchemeOf(c), old(fs.disk.files), items)
    ensures Outcome(ok, fs.disk) == Rotated(c, roll, max, items, old(fs.disk))
    ensures Sensible(c) && c.base in old(fs.disk.files) ==>
              RotatesTo(c, roll, max, items, old(fs.disk), ok, fs.disk)
  {
    ghost var before := fs.disk;
    var list := AddArchiveFiles(c, fs.disk.files, paths);
    items := list.Items();
    ok := MoveFiles(c, roll, max, list, fs);
    if Sensible(c) && c.base in before.files {
      RotatedIsRight(c, roll, max, items, before);
    }
  }

  /** One more log is written and rotated. */
  method WriteAndRotate<T(!new)>(c: Naming, roll: bool, max: int, x: T, fs: FileSystem<T>)
      returns (ok: bool, ghost full: Disk<T>, ghost items: seq<File>)
    requires Sensible(c)
    modifies fs
    ensures full == Disk(old(fs.disk.files)[c.base := x], old(fs.disk.replaced))
    ensures Lists(SchemeOf(c), full.files, items)
    ensures Outcome(ok, fs.disk) == Rotated(c, roll, max, items, full)
    ensures !roll ==> fs.disk.replaced == full.replaced
  {
    fs.Write(c.base, x);
    full := fs.disk;
    var paths := fs.List(c);
    ok, items := Rotate(c, roll, max, paths, fs);
  }

  lemma RollsOn<T(!new)>(s: Scheme, max: int, a: seq<T>, xs: seq<T>, d: Disk<T>, items: seq<File>)
    requires Sound(s) && xs != [] && Short(s, Most(max, |a|, |xs|))
    requires Holds(s, d.files, Newest(max, a, xs[..|xs| - 1]))
    requires Lists(s, d.files[s.base := xs[|xs| - 1]], items)
    ensures var r := RollFrom(s, max, items, |items|, Disk(d.files[s.base := xs[|xs| - 1]], d.replaced));
      && r.ok && r.disk.replaced == d.replaced
      && Holds(s, r.disk.files, Newest(max, a, xs))
  {
    var k := |xs| - 1;
    var before := Newest(max, a, xs[..k]);
    assert |before| <= Most(max, |a|, |xs|) by {
      NewestFirst(max, a, xs[..k]);
    }
    RollOnce(s, max, before, d, xs[k], items);
  }

  lemma QueuesOn<T(!new)>(s: Scheme, max: int, a: seq<T>, xs: seq<T>, d: Disk<T>, items: seq<File>)
    requires Sound(s) && xs != []
    requires InOrder(s, d.files, AllQueued(max, a, xs[..|xs| - 1]))
    requires Lists(s, d.files[s.base := xs[|xs| - 1]], items)
    ensures var r := SeqFrom(s, max, items, Disk(d.files[s.base := xs[|xs| - 1]], d.replaced));
      r.ok ==> InOrder(s, r.disk.files, AllQueued(max, a, xs))
  {
    var k := |xs| - 1;
    var full := Disk(d.files[s.base := xs[k]], d.replaced);
    var r := SeqFrom(s, max, items, full);
    if r.ok {
      assert |s.path(NextNumber(items))| <= MAXLEN_PATH;
      assert SeqStep(s, max, d, xs[k], r.disk);
      SeqStepAppends(s, max, AllQueued(max, a, xs[..k]), d, xs[k], r.disk);
    }
  }

  /**
   Any run of logs written and rotated: rolling always succeeds while the paths are short, and keeps the newest
   logs in order; in sequence mode the archives are the latest logs in the order of their numbers. No file is
   ever replaced.
   */
  method RotateAll<T(!new)>(c: Naming, roll: bool, max: int, xs: seq<T>, fs: FileSystem<T>, ghost a: seq<T>)
      returns (ok: bool)
    requires Sensible(c)
    requires if roll then Holds(SchemeOf(c), fs.disk.files, a) && Short(SchemeOf(c), Most(max, |a|, |xs|))
             else InOrder(SchemeOf(c), fs.disk.files, a)
    modifies fs
    ensures fs.disk.replaced == old(fs.disk.replaced)
    ensures roll ==> ok && Holds(SchemeOf(c), fs.disk.files, Newest(max, a, xs))
    ensures !roll && ok ==> InOrder(SchemeOf(c), fs.disk.files, AllQueued(max, a, xs))
    decreases |xs|
  {
    if xs == [] {
      return true;
    }
    var k := |xs| - 1;
    ok := RotateAll(c, roll, max, xs[..k], fs, a);
    if !ok {
      return;
    }
    ghost var d := fs.disk;
    ghost var full, items;
    ok, full, items := WriteAndRotate(c, roll, max, xs[k], fs);
    SchemeIsSound(c);
    if roll {
      RollsOn(SchemeOf(c), max, a, xs, d, items);
    } else {
      QueuesOn(SchemeOf(c), max, a, xs, d, items);
    }
  }
}
