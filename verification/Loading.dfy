/** Loading the manifest: every table it names is opened, and the engine gets its version and next file number. */
module Loading {
  import opened Keys
  import opened Coding
  import opened Runs
  import opened Versions
  import opened ManifestFormat
  import opened TableReader
  import Engine

  // ---- What loading yields -----------------------------------------------------------------------

  /** A table file: its bytes, and the records it was written from. */
  datatype TableFile = TableFile(bytes: Bytes, run: Run)

  /** The table files of the database directory, by number. */
  type Directory = map<nat, TableFile>

  predicate Opens(r: Row, dir: Directory) {
    r.number in dir && OpenTable(dir[r.number].bytes).Some?
  }

  predicate RowsOpen(rows: seq<Row>, dir: Directory) {
    forall r :: r in rows ==> Opens(r, dir)
  }

  predicate LevelsOpen(levels: seq<seq<Row>>, dir: Directory) {
    forall l :: 0 <= l < |levels| ==> RowsOpen(levels[l], dir)
  }

  function OpenedFile(r: Row, dir: Directory): FileMeta
    requires Opens(r, dir)
  {
    FileMeta(r.number, r.smallest, r.largest, r.fileSize, r.numEntries, dir[r.number].run)
  }

  function OpenedFiles(rows: seq<Row>, dir: Directory): (files: seq<FileMeta>)
    requires RowsOpen(rows, dir)
    ensures |files| == |rows|
  {
    seq(|rows|, i requires 0 <= i < |rows| => OpenedFile(rows[i], dir))
  }

  function OpenedLevels(levels: seq<seq<Row>>, dir: Directory): (files: seq<seq<FileMeta>>)
    requires LevelsOpen(levels, dir)
    ensures |files| == |levels|
  {
    seq(|levels|, l requires 0 <= l < |levels| => OpenedFiles(levels[l], dir))
  }

  /** A manifest without levels still gives an empty L0. */
  function AtLeastL0(levels: seq<seq<FileMeta>>): Version {
    if levels == [] then EMPTY_VERSION else Version(levels)
  }

  /** Above every number in use, in wrapping 64-bit arithmetic. */
  function NextNumber(next: nat, levels: seq<seq<FileMeta>>): nat {
    var above := (Engine.MaxLive(levels) + 1) % TWO_64;
    if next < above then above else next
  }

  datatype Loaded = Loaded(version: Version, next: nat)

  /** No manifest is a fresh database; a cut manifest or a table that does not open is an error. */
  function Load(manifest: Option<Bytes>, dir: Directory): Option<Loaded> {
    if manifest.None? then Some(Loaded(EMPTY_VERSION, 1))
    else
      match TakeListing(manifest.value)
      case Truncated => None
      case Taken(m, _) =>
        if LevelsOpen(m.levels, dir) then
          var levels := OpenedLevels(m.levels, dir);
          Some(Loaded(AtLeastL0(levels), NextNumber(m.next, levels)))
        else None
  }

  // ---- When loading succeeds, and what it gives --------------------------------------------------

  /** The file begins with the encoding of this listing. */
  ghost predicate BeginsWith(manifest: Bytes, m: Listing) {
    ListingFits(m) && ListingBytes(m) <= manifest
  }

  /** Every table the listing names is there and opens. */
  ghost predicate AllThere(m: Listing, dir: Directory) {
    forall l, i :: 0 <= l < |m.levels| && 0 <= i < |m.levels[l]| ==>
      m.levels[l][i].number in dir && OpenTable(dir[m.levels[l][i].number].bytes).Some?
  }

  /** There is no manifest, or a whole one all of whose tables are there and open. */
  ghost predicate Loadable(manifest: Option<Bytes>, dir: Directory) {
    manifest.None? || exists m :: BeginsWith(manifest.value, m) && AllThere(m, dir)
  }

  /** A manifest that ends inside its encoding. */
  ghost predicate CutShort(manifest: Option<Bytes>) {
    manifest.Some? && exists m :: ListingFits(m) && manifest.value < ListingBytes(m)
  }

  /** A whole manifest that names a table that is missing or does not open. */
  ghost predicate NamesLost(manifest: Option<Bytes>, dir: Directory) {
    manifest.Some? && exists m :: BeginsWith(manifest.value, m) && !AllThere(m, dir)
  }

  /** The file is described as the row says. */
  predicate AsListed(f: FileMeta, r: Row) {
    f.number == r.number && f.smallest == r.smallest && f.largest == r.largest
    && f.fileSize == r.fileSize && f.numEntries == r.numEntries
  }

  /** The levels hold the listed files, level by level and in order; without levels there is an empty L0. */
  ghost predicate LevelsListed(levels: seq<seq<FileMeta>>, m: Listing) {
    if m.levels == [] then levels == [[]]
    else
      && |levels| == |m.levels|
      && (forall l :: 0 <= l < |levels| ==> |levels[l]| == |m.levels[l]|)
      && (forall l, i :: 0 <= l < |levels| && 0 <= i < |levels[l]| ==> AsListed(levels[l][i], m.levels[l][i]))
  }

  ghost predicate Named(m: Listing, n: nat) {
    exists l, i :: 0 <= l < |m.levels| && 0 <= i < |m.levels[l]| && m.levels[l][i].number == n
  }

  /** The least number that is positive, not below the recorded one, and above every file; in 64 bits nothing is above
  the last number. */
  ghost predicate NextAfter(next: nat, m: Listing) {
    if Named(m, TWO_64 - 1) then next == m.next
    else
      && next >= m.next && next >= 1 && (forall n: nat :: Named(m, n) ==> n < next)
      && (next == m.next || next == 1 || Named(m, next - 1))
  }

  lemma TakenIff(s: Bytes, m: Listing)
    ensures (TakeListing(s).Taken? && TakeListing(s).value == m) <==> BeginsWith(s, m)
  {
    hide TakeListing, ListingBytes, ListingFits;
    AcceptedIffWritten(s, m);
  }

  lemma AllThereIsOpen(m: Listing, dir: Directory)
    ensures AllThere(m, dir) <==> LevelsOpen(m.levels, dir)
  {
    hide OpenTable;
    if AllThere(m, dir) {
      forall l | 0 <= l < |m.levels| ensures RowsOpen(m.levels[l], dir) {
        forall r | r in m.levels[l] ensures Opens(r, dir) {
          var i :| 0 <= i < |m.levels[l]| && m.levels[l][i] == r;
        }
      }
    }
    if LevelsOpen(m.levels, dir) {
      forall l, i | 0 <= l < |m.levels| && 0 <= i < |m.levels[l]| ensures Opens(m.levels[l][i], dir) {
        assert RowsOpen(m.levels[l], dir) && m.levels[l][i] in m.levels[l];
      }
    }
  }

  /** Loading succeeds if and only if there is no manifest, or a whole one all of whose tables are there and open. */
  lemma LoadsIff(manifest: Option<Bytes>, dir: Directory)
    ensures Load(manifest, dir).Some? <==> Loadable(manifest, dir)
  {
    hide TakeListing, BeginsWith, AllThere, LevelsOpen, OpenedLevels, AtLeastL0, NextNumber;
    if manifest.Some? {
      var t := TakeListing(manifest.value);
      if t.Taken? {
        TakenIff(manifest.value, t.value);
        AllThereIsOpen(t.value, dir);
      }
      forall m | BeginsWith(manifest.value, m) ensures t.Taken? && t.value == m {
        TakenIff(manifest.value, m);
      }
    }
  }

  /** A cut manifest and a manifest that names a lost table do not load. */
  lemma BadManifestsFail(manifest: Option<Bytes>, dir: Directory)
    ensures CutShort(manifest) || NamesLost(manifest, dir) ==> !Loadable(manifest, dir)
  {
    hide ListingBytes, ListingFits, AllThere, TakeListing;
    if CutShort(manifest) {
      var m :| ListingFits(m) && manifest.value < ListingBytes(m);
      CutManifestRejected(m, |manifest.value|);
      assert ListingBytes(m)[..|manifest.value|] == manifest.value;
      forall n ensures !BeginsWith(manifest.value, n) {
        TakenIff(manifest.value, n);
      }
    }
    if NamesLost(manifest, dir) {
      var m :| BeginsWith(manifest.value, m) && !AllThere(m, dir);
      forall n | BeginsWith(manifest.value, n) ensures n == m {
        TakenIff(manifest.value, n);
        TakenIff(manifest.value, m);
      }
    }
  }

  lemma {:induction false} MaxNumberIs(files: seq<FileMeta>)
    ensures forall f :: f in files ==> f.number <= Engine.MaxNumber(files)
    ensures Engine.MaxNumber(files) == 0 || exists f :: f in files && f.number == Engine.MaxNumber(files)
  {
    if files != [] {
      MaxNumberIs(files[..|files| - 1]);
      assert files[|files| - 1] in files;
    }
  }

  lemma {:induction false} MaxLiveIs(levels: seq<seq<FileMeta>>)
    ensures forall l, f :: 0 <= l < |levels| && f in levels[l] ==> f.number <= Engine.MaxLive(levels)
    ensures Engine.MaxLive(levels) == 0
      || exists l, f :: 0 <= l < |levels| && f in levels[l] && f.number == Engine.MaxLive(levels)
  {
    hide Engine.MaxNumber;
    if levels != [] {
      var rest, last := levels[..|levels| - 1], levels[|levels| - 1];
      MaxLiveIs(rest);
      MaxNumberIs(last);
      assert levels[|levels| - 1] == last;
    }
  }

  lemma NamedIs(levels: seq<seq<FileMeta>>, m: Listing, n: nat)
    requires m.levels != [] && LevelsListed(levels, m)
    ensures Named(m, n) <==> exists l, f :: 0 <= l < |levels| && f in levels[l] && f.number == n
  {
    if Named(m, n) {
      var l, i :| 0 <= l < |m.levels| && 0 <= i < |m.levels[l]| && m.levels[l][i].number == n;
      assert AsListed(levels[l][i], m.levels[l][i]) && levels[l][i] in levels[l];
    }
    if l, f :| 0 <= l < |levels| && f in levels[l] && f.number == n {
      var i :| 0 <= i < |levels[l]| && levels[l][i] == f;
      assert AsListed(levels[l][i], m.levels[l][i]);
    }
  }

  lemma OpenedAsListed(m: Listing, dir: Directory)
    requires LevelsOpen(m.levels, dir)
    ensures LevelsListed(AtLeastL0(OpenedLevels(m.levels, dir)).levels, m)
  {
    hide OpenTable, Opens;
    var levels := OpenedLevels(m.levels, dir);
    forall l, i | 0 <= l < |levels| && 0 <= i < |levels[l]| ensures AsListed(levels[l][i], m.levels[l][i]) {
      assert RowsOpen(m.levels[l], dir) && m.levels[l][i] in m.levels[l];
    }
  }

  lemma NextIsLeast(m: Listing, levels: seq<seq<FileMeta>>)
    requires ListingFits(m) && |levels| == |m.levels| && (levels != [] ==> LevelsListed(levels, m))
    ensures NextAfter(NextNumber(m.next, levels), m)
  {
    hide LevelsListed, Named, ListingFits, Engine.MaxLive;
    var max := Engine.MaxLive(levels);
    MaxLiveIs(levels);
    NextFits(m);
    if levels == [] {
      NothingNamed(m);
    } else {
      forall n: nat ensures Named(m, n) <==> exists l, f :: 0 <= l < |levels| && f in levels[l] && f.number == n {
        NamedIs(levels, m, n);
      }
      assert max > 0 ==> Named(m, max);
      assert forall n: nat :: Named(m, n) ==> n <= max;
      assert max < TWO_64;
    }
  }

  lemma NothingNamed(m: Listing)
    requires m.levels == []
    ensures forall n :: !Named(m, n)
  {
  }

  lemma NextFits(m: Listing)
    requires ListingFits(m)
    ensures m.next < TWO_64 && forall n: nat :: Named(m, n) ==> n < TWO_64
  {
    forall n: nat | Named(m, n) ensures n < TWO_64 {
      var l, i :| 0 <= l < |m.levels| && 0 <= i < |m.levels[l]| && m.levels[l][i].number == n;
      assert RowsFit(m.levels[l]) && m.levels[l][i] in m.levels[l];
    }
  }

  /** What is loaded is what the manifest lists, and the next number is the least that will do. */
  lemma LoadedAsListed(manifest: Option<Bytes>, dir: Directory, m: Listing)
    requires manifest.Some? && BeginsWith(manifest.value, m) && AllThere(m, dir)
    ensures var o := Load(manifest, dir);
      o.Some? && LevelsListed(o.value.version.levels, m) && NextAfter(o.value.next, m)
  {
    hide TakeListing, ListingBytes, ListingFits, AllThere, LevelsOpen, OpenedLevels, LevelsListed, NextAfter,
      NextNumber;
    TakenIff(manifest.value, m);
    AllThereIsOpen(m, dir);
    OpenedAsListed(m, dir);
    NextIsLeast(m, OpenedLevels(m.levels, dir));
  }

  // ---- The code ----------------------------------------------------------------------------------

  function Max(a: nat, b: nat): nat {
    if a < b then b else a
  }

  /** One level: its rows read and its tables opened, one after the other. */
  method LoadLevel(buf: Bytes, start: nat, dir: Directory, max: nat)
    returns (ok: bool, files: seq<FileMeta>, pos: nat, top: nat)
    requires start <= |buf|
    ensures ok <==> TakeLevel(buf[start..]).Taken? && RowsOpen(TakeLevel(buf[start..]).value, dir)
    ensures ok ==> var t := TakeLevel(buf[start..]);
      && pos == start + t.size && files == OpenedFiles(t.value, dir) && top == Max(max, Engine.MaxNumber(files))
  {
    hide DecodeFixed32, DecodeFixed64, TakeRow, TakeRows, Opens, OpenedFile, OpenedFiles, RowsOpen, Max,
      Engine.MaxNumber, Continues;
    NoFilesYet(dir, max);
    files, pos, top := [], start, max;
    if pos + 4 > |buf| {
      return false, files, pos, top;
    }
    var n := DecodeFixed32(buf[pos..]);
    pos := pos + 4;
    ghost var rows: seq<Row> := [];
    ghost var whole := TakeRows(buf[start + 4..], n);
    assert buf[start..][4..] == buf[start + 4..];
    ContinuesStart(whole);
    var f := 0;
    while f < n
      invariant 0 <= f <= n && start + 4 <= pos <= |buf| && |rows| == f
      invariant RowsOpen(rows, dir) && files == OpenedFiles(rows, dir) && top == Max(max, Engine.MaxNumber(files))
      invariant Continues(whole, rows, pos - start - 4, TakeRows(buf[pos..], n - f))
    {
      var t := TakeRow(buf[pos..]);
      RowsUnfold(buf, pos, n - f);
      ContinuesStop(whole, rows, pos - start - 4, TakeRows(buf[pos..], n - f));
      if t.Truncated? {
        return false, files, pos, top;
      }
      var row := t.value;
      ghost var rest := TakeRows(buf[pos + t.size..], n - f - 1);
      ContinuesStep(whole, rows, pos - start - 4, row, t.size, rest);
      if !Opens(row, dir) {
        ContinuesStop(whole, rows + [row], pos - start - 4 + t.size, rest);
        if whole.Taken? {
          NotAllOpen(whole.value, row, dir);
        }
        return false, files, pos, top;
      }
      var file := OpenedFile(row, dir);
      OneMoreFile(rows, row, dir, max);
      files := files + [file];
      top := Max(top, file.number);
      pos := pos + t.size;
      rows := rows + [row];
      f := f + 1;
    }
    ContinuesStop(whole, rows, pos - start - 4, TakeRows(buf[pos..], 0));
    RowsUnfold(buf, pos, 0);
    ok := true;
  }

  lemma NoFilesYet(dir: Directory, max: nat)
    ensures RowsOpen([], dir) && OpenedFiles([], dir) == [] && max == Max(max, Engine.MaxNumber([]))
  {
  }

  lemma OneMoreFile(rows: seq<Row>, row: Row, dir: Directory, max: nat)
    requires RowsOpen(rows, dir) && Opens(row, dir)
    ensures RowsOpen(rows + [row], dir)
    ensures OpenedFiles(rows + [row], dir) == OpenedFiles(rows, dir) + [OpenedFile(row, dir)]
    ensures Max(max, Engine.MaxNumber(OpenedFiles(rows + [row], dir)))
         == Max(Max(max, Engine.MaxNumber(OpenedFiles(rows, dir))), row.number)
    ensures OpenedFile(row, dir).number == row.number
  {
    hide Opens;
    var files, file := OpenedFiles(rows, dir), OpenedFile(row, dir);
    assert OpenedFiles(rows + [row], dir) == files + [file];
    assert (files + [file])[..|files|] == files;
  }

  lemma NotAllOpen(rows: seq<Row>, row: Row, dir: Directory)
    requires row in rows && !Opens(row, dir)
    ensures !RowsOpen(rows, dir)
  {
    hide Opens;
  }

  /** A parsed item put in front of what follows it. */
  function Front<T>(x: T, n: nat, rest: Taken<seq<T>>): Taken<seq<T>> {
    match rest case Truncated => Truncated case Taken(v, m) => Taken([x] + v, n + m)
  }

  lemma RowsUnfold(buf: Bytes, pos: nat, n: nat)
    requires pos <= |buf|
    ensures n == 0 ==> TakeRows(buf[pos..], n) == Taken([], 0)
    ensures n > 0 && TakeRow(buf[pos..]).Truncated? ==> TakeRows(buf[pos..], n).Truncated?
    ensures var t := TakeRow(buf[pos..]);
      n > 0 && t.Taken? ==> TakeRows(buf[pos..], n) == Front(t.value, t.size, TakeRows(buf[pos + t.size..], n - 1))
  {
    hide TakeRow;
    var t := TakeRow(buf[pos..]);
    assert t.Taken? ==> buf[pos..][t.size..] == buf[pos + t.size..];
  }

  lemma LevelsUnfold(buf: Bytes, pos: nat, n: nat)
    requires pos <= |buf|
    ensures n == 0 ==> TakeLevels(buf[pos..], n) == Taken([], 0)
    ensures n > 0 && TakeLevel(buf[pos..]).Truncated? ==> TakeLevels(buf[pos..], n).Truncated?
    ensures var t := TakeLevel(buf[pos..]);
      n > 0 && t.Taken? ==> TakeLevels(buf[pos..], n) == Front(t.value, t.size, TakeLevels(buf[pos + t.size..], n - 1))
  {
    hide TakeLevel;
    var t := TakeLevel(buf[pos..]);
    assert t.Taken? ==> buf[pos..][t.size..] == buf[pos + t.size..];
  }

  /** Having read `done` in `size` bytes, what remains decides the whole. */
  ghost predicate Continues<T>(whole: Taken<seq<T>>, done: seq<T>, size: nat, rest: Taken<seq<T>>) {
    whole == match rest case Truncated => Truncated case Taken(v, n) => Taken(done + v, size + n)
  }

  lemma ContinuesStart<T>(whole: Taken<seq<T>>)
    ensures Continues(whole, [], 0, whole)
  {
    assert forall v: seq<T> :: [] + v == v;
  }

  lemma ContinuesStop<T>(whole: Taken<seq<T>>, done: seq<T>, size: nat, rest: Taken<seq<T>>)
    requires Continues(whole, done, size, rest)
    ensures rest.Truncated? ==> whole.Truncated?
    ensures rest == Taken([], 0) ==> whole == Taken(done, size)
  {
    assert done + [] == done;
  }

  lemma ContinuesStep<T>(whole: Taken<seq<T>>, done: seq<T>, size: nat, x: T, n: nat, rest: Taken<seq<T>>)
    requires Continues(whole, done, size, Front(x, n, rest))
    ensures Continues(whole, done + [x], size + n, rest)
    ensures rest.Taken? ==> whole.Taken? && x in whole.value
  {
    if rest.Taken? {
      assert done + ([x] + rest.value) == done + [x] + rest.value;
      assert (done + [x] + rest.value)[|done|] == x;
    }
  }

  lemma OpenedLevelsStep(rows: seq<seq<Row>>, more: seq<Row>, dir: Directory)
    requires LevelsOpen(rows, dir) && RowsOpen(more, dir)
    ensures LevelsOpen(rows + [more], dir)
    ensures OpenedLevels(rows + [more], dir) == OpenedLevels(rows, dir) + [OpenedFiles(more, dir)]
    ensures Engine.MaxLive(OpenedLevels(rows + [more], dir))
         == Max(Engine.MaxLive(OpenedLevels(rows, dir)), Engine.MaxNumber(OpenedFiles(more, dir)))
  {
    hide RowsOpen, OpenedFiles, Engine.MaxNumber;
    var levels, files := OpenedLevels(rows, dir), OpenedFiles(more, dir);
    assert OpenedLevels(rows + [more], dir) == levels + [files];
    assert (levels + [files])[..|levels|] == levels;
  }

  method LoadLevels(buf: Bytes, n: nat, dir: Directory) returns (ok: bool, levels: seq<seq<FileMeta>>, max: nat)
    requires |buf| >= 12
    ensures ok <==> TakeLevels(buf[12..], n).Taken? && LevelsOpen(TakeLevels(buf[12..], n).value, dir)
    ensures ok ==> levels == OpenedLevels(TakeLevels(buf[12..], n).value, dir) && max == Engine.MaxLive(levels)
  {
    hide TakeLevel, TakeLevels, OpenTable, RowsOpen, OpenedFiles, OpenedLevels, Continues, Engine.MaxLive;
    var pos, l := 12, 0;
    levels, max := [], 0;
    ghost var rows: seq<seq<Row>> := [];
    ghost var whole := TakeLevels(buf[12..], n);
    ContinuesStart(whole);
    NoLevels(dir);
    while l < n
      invariant 0 <= l <= n && 12 <= pos <= |buf| && |rows| == l
      invariant LevelsOpen(rows, dir) && levels == OpenedLevels(rows, dir) && max == Engine.MaxLive(levels)
      invariant Continues(whole, rows, pos - 12, TakeLevels(buf[pos..], n - l))
    {
      ghost var t := TakeLevel(buf[pos..]);
      LevelsUnfold(buf, pos, n - l);
      ContinuesStop(whole, rows, pos - 12, TakeLevels(buf[pos..], n - l));
      if t.Taken? {
        ghost var rest := TakeLevels(buf[pos + t.size..], n - l - 1);
        ContinuesStep(whole, rows, pos - 12, t.value, t.size, rest);
        ContinuesStop(whole, rows + [t.value], pos - 12 + t.size, rest);
      }
      var good, files, after, top := LoadLevel(buf, pos, dir, max);
      if !good {
        return false, levels, max;
      }
      OpenedLevelsStep(rows, t.value, dir);
      levels := levels + [files];
      rows := rows + [t.value];
      pos, max := after, top;
      l := l + 1;
    }
    ContinuesStop(whole, rows, pos - 12, TakeLevels(buf[pos..], 0));
    LevelsUnfold(buf, pos, 0);
    ok := true;
  }

  lemma NoLevels(dir: Directory)
    ensures LevelsOpen([], dir) && OpenedLevels([], dir) == [] && Engine.MaxLive([]) == 0
  {
  }

  /** No manifest is a fresh database. A manifest loads if and only if it is whole and all of its tables are there and
  open, and then to the files it lists and the next number above them. */
  method LoadManifest(manifest: Option<Bytes>, dir: Directory) returns (o: Option<Loaded>)
    ensures o == Load(manifest, dir)
    ensures o.Some? <==> Loadable(manifest, dir)
    ensures manifest.None? ==> o == Some(Loaded(EMPTY_VERSION, 1))
    ensures manifest.Some? && o.Some? ==> forall m :: BeginsWith(manifest.value, m) ==>
      AllThere(m, dir) && LevelsListed(o.value.version.levels, m) && NextAfter(o.value.next, m)
    ensures CutShort(manifest) || NamesLost(manifest, dir) ==> o.None?
  {
    LoadFacts(manifest, dir);
    o := ReadManifest(manifest, dir);
  }

  lemma LoadFacts(manifest: Option<Bytes>, dir: Directory)
    ensures var o := Load(manifest, dir);
      && (o.Some? <==> Loadable(manifest, dir))
      && (manifest.Some? && o.Some? ==> forall m :: BeginsWith(manifest.value, m) ==>
            AllThere(m, dir) && LevelsListed(o.value.version.levels, m) && NextAfter(o.value.next, m))
      && (CutShort(manifest) || NamesLost(manifest, dir) ==> o.None?)
  {
    hide Load, BeginsWith, AllThere, LevelsListed, NextAfter, CutShort;
    LoadsIff(manifest, dir);
    BadManifestsFail(manifest, dir);
    if manifest.Some? && Load(manifest, dir).Some? {
      forall m | BeginsWith(manifest.value, m)
        ensures AllThere(m, dir)
        ensures LevelsListed(Load(manifest, dir).value.version.levels, m)
        ensures NextAfter(Load(manifest, dir).value.next, m)
      {
        LoadedAsListed(manifest, dir, m);
      }
    }
  }

  method ReadManifest(manifest: Option<Bytes>, dir: Directory) returns (o: Option<Loaded>)
    ensures o == Load(manifest, dir)
  {
    hide DecodeFixed32, DecodeFixed64, TakeLevels, LevelsOpen, OpenedLevels, Engine.MaxLive;
    if manifest.None? {
      return Some(Loaded(EMPTY_VERSION, 1));
    }
    var buf := manifest.value;
    if 12 > |buf| {
      return None;
    }
    var next, n := DecodeFixed64(buf), DecodeFixed32(buf[8..]);
    var ok, levels, max := LoadLevels(buf, n, dir);
    if !ok {
      return None;
    }
    var version := if levels == [] then EMPTY_VERSION else Version(levels);
    var above := (max + 1) % TWO_64;
    return Some(Loaded(version, if next < above then above else next));
  }
}
