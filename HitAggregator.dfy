/** The hit aggregator: the artifact files a check invocation wrote are scanned
    for indicator matches, giving a total and a per-category breakdown, and the
    files written since an instant are picked out of the output directory. */
module HitAggregator {
  import opened Text
  import opened Patterns
  import IocNames

  /** The six keyword categories of `HIT_KEYWORDS`, in their insertion order. */
  datatype Category = Domain | Url | Ip | File | Package | Process

  const CATEGORIES: seq<Category> := [Domain, Url, Ip, File, Package, Process]

  function CategoryName(c: Category): string {
    match c
    case Domain => "domain"
    case Url => "url"
    case Ip => "ip"
    case File => "file"
    case Package => "package"
    case Process => "process"
  }

  lemma CategoryNameInjective(c: Category, d: Category)
    ensures CategoryName(c) == CategoryName(d) <==> c == d
  {
  }

  /** The keyword regex of each category, as an ordered alternation. The optional
      group of `\bip(v4|v6)?\b` gives the branches "ipv4", "ipv6", "ip", each
      between boundaries; `https?://\b` gives "https://" before "http://". */
  function KeywordPattern(c: Category): (p: Pattern)
    ensures ValidPattern(p) && p.Alternatives?
  {
    match c
    case Domain => Alternatives([Alt(true, "domain", false), Alt(false, "hostname", false), Alt(false, "dns", true)])
    case Url => Alternatives([Alt(true, "url", false), Alt(false, "https://", true), Alt(false, "http://", true)])
    case Ip => Alternatives([Alt(true, "ipv4", true), Alt(true, "ipv6", true), Alt(true, "ip", true)])
    case File => Alternatives([Alt(true, "file", false), Alt(false, "path", true)])
    case Package => Alternatives([Alt(true, "package", false), Alt(false, "pkg", true)])
    case Process => Alternatives([Alt(true, "process", false), Alt(false, "ps", true)])
  }

  /** `len(re.findall(pat, text, re.I))` for a category. */
  function KeywordCount(text: string, c: Category): nat {
    FindAllCount(Lower(text), KeywordPattern(c))
  }

  /** `len(re.findall(<matched marker>, text, re.I))`. */
  function MarkerCount(text: string): nat {
    FindAllCount(Lower(text), MatchedMarker)
  }

  /** An artifact file as the aggregator sees it: its path, its text (`None` when
      reading it fails) and the rows the CSV reader yields before it reaches the
      end of the file or fails, header row included. */
  datatype Artifact = Artifact(path: string, text: Option<string>, rows: seq<seq<string>>)

  /** How `count_hits_in_files` treats a file, by the lowercased suffix of the
      path's last component. */
  datatype Kind = Json | Table | Plain

  function KindOf(path: string): Kind {
    var x := Lower(IocNames.Suffix(IocNames.BaseName(path)));
    if x == ".json" then Json
    else if x == ".csv" || x == ".tsv" then Table
    else Plain
  }

  /** An unreadable file is read as empty text. */
  function TextOf(f: Artifact): string {
    if f.text.Some? then f.text.value else ""
  }

  /** The rows after the header, which `next(reader, [])` skips. */
  function DataRows(f: Artifact): seq<seq<string>> {
    if |f.rows| > 0 then f.rows[1..] else []
  }

  function RowText(row: seq<string>): string {
    Join(row, " ")
  }

  predicate RowMatches(row: seq<string>, c: Category) {
    Search(Lower(RowText(row)), KeywordPattern(c))
  }

  /** `per_type` and `total` as the loop builds them. */
  datatype Tally = Tally(total: nat, perType: map<string, nat>)

  /** `per_type.get(k, 0)`. */
  function Get(m: map<string, nat>, k: string): nat {
    if k in m then m[k] else 0
  }

  /** `if c: per_type[k] = per_type.get(k, 0) + c` */
  function Bump(m: map<string, nat>, k: string, c: nat): map<string, nat> {
    if c > 0 then m[k := Get(m, k) + c] else m
  }

  /** The keyword pass over a whole text, for the categories `cats` in order. */
  function TextBumps(m: map<string, nat>, text: string, cats: seq<Category>): map<string, nat> {
    if cats == [] then m
    else
      var c := cats[|cats| - 1];
      Bump(TextBumps(m, text, cats[..|cats| - 1]), CategoryName(c), KeywordCount(text, c))
  }

  /** The keyword pass over one data row: one per category that the row matches. */
  function RowBumps(m: map<string, nat>, row: seq<string>, cats: seq<Category>): map<string, nat> {
    if cats == [] then m
    else
      var c := cats[|cats| - 1];
      Bump(RowBumps(m, row, cats[..|cats| - 1]), CategoryName(c), if RowMatches(row, c) then 1 else 0)
  }

  /** The data rows `rows` counted, one after another. */
  function RowsStep(t: Tally, rows: seq<seq<string>>): Tally {
    if rows == [] then t
    else
      var u := RowsStep(t, rows[..|rows| - 1]);
      Tally(u.total + 1, RowBumps(u.perType, rows[|rows| - 1], CATEGORIES))
  }

  /** One file's contribution, as the body of the loop over `paths` makes it. */
  function FileStep(t: Tally, f: Artifact): Tally {
    match KindOf(f.path)
    case Json => Tally(t.total + MarkerCount(TextOf(f)), TextBumps(t.perType, TextOf(f), CATEGORIES))
    case Table => RowsStep(t, DataRows(f))
    case Plain => Tally(t.total, TextBumps(t.perType, TextOf(f), CATEGORIES))
  }

  /** `count_hits_in_files`, file after file. */
  function Aggregate(files: seq<Artifact>): Tally {
    if files == [] then Tally(0, map[])
    else FileStep(Aggregate(files[..|files| - 1]), files[|files| - 1])
  }

  /** `count_hits_in_files`: the JSON marker count and the data-row count go into
      the total; keyword counts go into the per-category map, whose entries are
      created only for positive counts. */
  method CountHitsInFiles(files: seq<Artifact>) returns (total: nat, perType: map<string, nat>)
    ensures Tally(total, perType) == Aggregate(files)
  {
    total := 0;
    perType := map[];
    var i := 0;
    while i < |files|
      invariant 0 <= i <= |files|
      invariant Tally(total, perType) == Aggregate(files[..i])
    {
      var f := files[i];
      assert files[..i + 1][..i] == files[..i];
      var text := TextOf(f);
      var kind := KindOf(f.path);
      if kind == Json {
        total := total + MarkerCount(text);
        perType := CountKeywords(perType, text, CATEGORIES);
      } else if kind == Table {
        total, perType := CountRows(total, perType, DataRows(f));
      } else {
        perType := CountKeywords(perType, text, CATEGORIES);
      }
      i := i + 1;
    }
    assert files[..i] == files;
  }

  /** The loop over the data rows of a table. */
  method CountRows(total0: nat, perType0: map<string, nat>, rows: seq<seq<string>>) returns (total: nat, perType: map<string, nat>)
    ensures Tally(total, perType) == RowsStep(Tally(total0, perType0), rows)
  {
    total, perType := total0, perType0;
    var r := 0;
    while r < |rows|
      invariant 0 <= r <= |rows|
      invariant Tally(total, perType) == RowsStep(Tally(total0, perType0), rows[..r])
    {
      assert rows[..r + 1][..r] == rows[..r];
      total := total + 1;
      perType := CountRowKeywords(perType, rows[r], CATEGORIES);
      r := r + 1;
    }
    assert rows[..r] == rows;
  }

  /** The keyword loop of the JSON and plain-text branches. */
  method CountKeywords(m0: map<string, nat>, text: string, cats: seq<Category>) returns (m: map<string, nat>)
    ensures m == TextBumps(m0, text, cats)
  {
    m := m0;
    var j := 0;
    while j < |cats|
      invariant 0 <= j <= |cats|
      invariant m == TextBumps(m0, text, cats[..j])
    {
      var c := cats[j];
      TextBumpsSnoc(m0, text, cats, j);
      m := Bump(m, CategoryName(c), KeywordCount(text, c));
      j := j + 1;
    }
    assert cats[..j] == cats;
  }

  /** The keyword loop over one data row of a table. */
  method CountRowKeywords(m0: map<string, nat>, row: seq<string>, cats: seq<Category>) returns (m: map<string, nat>)
    ensures m == RowBumps(m0, row, cats)
  {
    m := m0;
    var j := 0;
    while j < |cats|
      invariant 0 <= j <= |cats|
      invariant m == RowBumps(m0, row, cats[..j])
    {
      var c := cats[j];
      RowBumpsSnoc(m0, row, cats, j);
      m := Bump(m, CategoryName(c), if RowMatches(row, c) then 1 else 0);
      j := j + 1;
    }
    assert cats[..j] == cats;
  }

  lemma TextBumpsSnoc(m0: map<string, nat>, text: string, cats: seq<Category>, j: nat)
    requires j < |cats|
    ensures TextBumps(m0, text, cats[..j + 1]) ==
      Bump(TextBumps(m0, text, cats[..j]), CategoryName(cats[j]), KeywordCount(text, cats[j]))
  {
    assert cats[..j + 1][..j] == cats[..j];
  }

  lemma RowBumpsSnoc(m0: map<string, nat>, row: seq<string>, cats: seq<Category>, j: nat)
    requires j < |cats|
    ensures RowBumps(m0, row, cats[..j + 1]) ==
      Bump(RowBumps(m0, row, cats[..j]), CategoryName(cats[j]), if RowMatches(row, cats[j]) then 1 else 0)
  {
    assert cats[..j + 1][..j] == cats[..j];
  }

  // ---------------------------------------------------------------------------
  // What the tally means, file by file.

  /** What one file adds to the total: its JSON markers, its data rows, or nothing. */
  function FileTotal(f: Artifact): nat {
    match KindOf(f.path)
    case Json => MarkerCount(TextOf(f))
    case Table => |DataRows(f)|
    case Plain => 0
  }

  /** Number of rows that match the category. */
  function RowsMatching(rows: seq<seq<string>>, c: Category): (r: nat)
    ensures r <= |rows|
  {
    if rows == [] then 0
    else RowsMatching(rows[..|rows| - 1], c) + (if RowMatches(rows[|rows| - 1], c) then 1 else 0)
  }

  /** What one file adds to a category: its keyword matches, or for a table the
      number of data rows that contain the keyword. */
  function FileHits(f: Artifact, c: Category): nat {
    match KindOf(f.path)
    case Table => RowsMatching(DataRows(f), c)
    case _ => KeywordCount(TextOf(f), c)
  }

  function SumTotals(files: seq<Artifact>): nat {
    if files == [] then 0 else SumTotals(files[..|files| - 1]) + FileTotal(files[|files| - 1])
  }

  function SumHits(files: seq<Artifact>, c: Category): nat {
    if files == [] then 0 else SumHits(files[..|files| - 1], c) + FileHits(files[|files| - 1], c)
  }

  /** Every entry of the map is a category name with a positive count. */
  predicate WellFormed(m: map<string, nat>) {
    forall k :: k in m ==> m[k] > 0 && exists c: Category :: k == CategoryName(c)
  }

  predicate Distinct(cats: seq<Category>) {
    forall i, j :: 0 <= i < j < |cats| ==> cats[i] != cats[j]
  }

  lemma CategoriesDistinct()
    ensures Distinct(CATEGORIES)
  {
  }

  /** A bump adds to its own key only, and keeps the map well formed. */
  lemma BumpCount(m: map<string, nat>, d: Category, n: nat, c: Category)
    requires WellFormed(m)
    ensures WellFormed(Bump(m, CategoryName(d), n))
    ensures Get(Bump(m, CategoryName(d), n), CategoryName(c)) == Get(m, CategoryName(c)) + (if c == d then n else 0)
  {
    CategoryNameInjective(c, d);
  }

  lemma {:induction false} TextBumpsCount(m: map<string, nat>, text: string, cats: seq<Category>, c: Category)
    requires WellFormed(m) && Distinct(cats)
    ensures WellFormed(TextBumps(m, text, cats))
    ensures Get(TextBumps(m, text, cats), CategoryName(c)) ==
      Get(m, CategoryName(c)) + (if c in cats then KeywordCount(text, c) else 0)
  {
    if cats != [] {
      var init := cats[..|cats| - 1];
      var d := cats[|cats| - 1];
      TextBumpsCount(m, text, init, c);
      BumpCount(TextBumps(m, text, init), d, KeywordCount(text, d), c);
      assert d !in init;
      assert c in cats <==> c in init || c == d;
    }
  }

  lemma {:induction false} RowBumpsCount(m: map<string, nat>, row: seq<string>, cats: seq<Category>, c: Category)
    requires WellFormed(m) && Distinct(cats)
    ensures WellFormed(RowBumps(m, row, cats))
    ensures Get(RowBumps(m, row, cats), CategoryName(c)) ==
      Get(m, CategoryName(c)) + (if c in cats && RowMatches(row, c) then 1 else 0)
  {
    if cats != [] {
      var init := cats[..|cats| - 1];
      var d := cats[|cats| - 1];
      RowBumpsCount(m, row, init, c);
      BumpCount(RowBumps(m, row, init), d, if RowMatches(row, d) then 1 else 0, c);
      assert d !in init;
      assert c in cats <==> c in init || c == d;
    }
  }

  lemma AllCategories(c: Category)
    ensures c in CATEGORIES
  {
  }

  lemma {:induction false} RowsStepCount(t: Tally, rows: seq<seq<string>>, c: Category)
    requires WellFormed(t.perType)
    ensures WellFormed(RowsStep(t, rows).perType)
    ensures RowsStep(t, rows).total == t.total + |rows|
    ensures Get(RowsStep(t, rows).perType, CategoryName(c)) == Get(t.perType, CategoryName(c)) + RowsMatching(rows, c)
  {
    if rows != [] {
      var init := rows[..|rows| - 1];
      RowsStepCount(t, init, c);
      var u := RowsStep(t, init);
      AllCategories(c);
      CategoriesDistinct();
      RowBumpsCount(u.perType, rows[|rows| - 1], CATEGORIES, c);
    }
  }

  lemma FileStepCount(t: Tally, f: Artifact, c: Category)
    requires WellFormed(t.perType)
    ensures WellFormed(FileStep(t, f).perType)
    ensures FileStep(t, f).total == t.total + FileTotal(f)
    ensures Get(FileStep(t, f).perType, CategoryName(c)) == Get(t.perType, CategoryName(c)) + FileHits(f, c)
  {
    if KindOf(f.path) == Table {
      RowsStepCount(t, DataRows(f), c);
    } else {
      AllCategories(c);
      CategoriesDistinct();
      TextBumpsCount(t.perType, TextOf(f), CATEGORIES, c);
    }
  }

  /** The tally is the sum of the files' contributions: the total adds up what each
      file contributes, each category's count adds up each file's hits for it, and
      a category has an entry exactly when that sum is positive. */
  lemma {:induction false} AggregateIsSum(files: seq<Artifact>, c: Category)
    ensures WellFormed(Aggregate(files).perType)
    ensures Aggregate(files).total == SumTotals(files)
    ensures Get(Aggregate(files).perType, CategoryName(c)) == SumHits(files, c)
    ensures CategoryName(c) in Aggregate(files).perType <==> SumHits(files, c) > 0
  {
    if files != [] {
      AggregateIsSum(files[..|files| - 1], c);
      FileStepCount(Aggregate(files[..|files| - 1]), files[|files| - 1], c);
    }
  }

  /** The map holds nothing but category names with positive counts. */
  lemma AggregateKeys(files: seq<Artifact>, k: string)
    requires k in Aggregate(files).perType
    ensures Aggregate(files).perType[k] > 0
    ensures exists c :: c in CATEGORIES && k == CategoryName(c)
  {
    AggregateIsSum(files, Domain);
    var c: Category :| k == CategoryName(c);
    AllCategories(c);
  }

  /** A table adds its data rows to the total, however many fields or keywords
      they hold, and no category more than once per data row; the header row
      counts for nothing. */
  lemma TableContribution(f: Artifact, c: Category)
    requires KindOf(f.path) == Table
    ensures FileTotal(f) == if |f.rows| == 0 then 0 else |f.rows| - 1
    ensures FileHits(f, c) <= FileTotal(f)
  {
  }

  /** A table with a header and three data rows adds three to the total. */
  lemma ThreeRowTable(f: Artifact)
    requires KindOf(f.path) == Table && |f.rows| == 4
    ensures FileTotal(f) == 3
  {
  }

  /** Plain files add keyword counts but nothing to the total; an unreadable
      file that is not a table adds nothing at all. */
  lemma PlainAndUnreadable(f: Artifact, c: Category)
    ensures KindOf(f.path) == Plain ==> FileTotal(f) == 0
    ensures KindOf(f.path) != Table && f.text.None? ==> FileTotal(f) == 0 && FileHits(f, c) == 0
  {
  }

  /** The file's own suffix decides the branch whatever the letter case, and
      whatever dots the directory holds. */
  lemma KindIgnoresCase(dir: string, name: string)
    requires '/' !in name && IocNames.Suffix(name) == ".JSON"
    ensures KindOf(dir + "/" + name) == Json
  {
    IocNames.BaseNameInDir(dir, name);
  }

  // ---------------------------------------------------------------------------
  // Files written since an instant.

  /** What `stat()` reports for a directory entry: whether it is a regular file
      and its modification time in milliseconds. */
  datatype Stat = Stat(isFile: bool, mtimeMs: int)

  /** An entry of the recursive listing; `stat` is `None` when querying it raises. */
  datatype DirEntry = DirEntry(path: string, stat: Option<Stat>)

  /** Half a second of slack for coarse file-system clocks. */
  const TOLERANCE_MS: int := 500

  predicate IsRecent(e: DirEntry, beforeMs: int) {
    e.stat.Some? && e.stat.value.isFile && e.stat.value.mtimeMs >= beforeMs - TOLERANCE_MS
  }

  function Recent(entries: seq<DirEntry>, beforeMs: int): seq<string> {
    if entries == [] then []
    else
      var init := Recent(entries[..|entries| - 1], beforeMs);
      var e := entries[|entries| - 1];
      if IsRecent(e, beforeMs) then init + [e.path] else init
  }

  /** `new_files_since`: the regular files of the listing modified no earlier than
      half a second before `beforeMs`, in listing order; entries whose status
      cannot be read are skipped. */
  method NewFilesSince(entries: seq<DirEntry>, beforeMs: int) returns (files: seq<string>)
    ensures files == Recent(entries, beforeMs)
  {
    files := [];
    var i := 0;
    while i < |entries|
      invariant 0 <= i <= |entries|
      invariant files == Recent(entries[..i], beforeMs)
    {
      assert entries[..i + 1][..i] == entries[..i];
      var e := entries[i];
      if e.stat.Some? {
        if e.stat.value.isFile && e.stat.value.mtimeMs >= beforeMs - TOLERANCE_MS {
          files := files + [e.path];
        }
      }
      i := i + 1;
    }
    assert entries[..i] == entries;
  }

  /** A path is picked exactly when one of its entries is a recent regular file;
      `RecentOrder` adds that the picks keep the listing's order. */
  lemma {:induction false} RecentMembers(entries: seq<DirEntry>, beforeMs: int)
    ensures |Recent(entries, beforeMs)| <= |entries|
    ensures forall p :: p in Recent(entries, beforeMs) <==>
      exists i :: 0 <= i < |entries| && entries[i].path == p && IsRecent(entries[i], beforeMs)
  {
    if entries != [] {
      var init := entries[..|entries| - 1];
      RecentMembers(init, beforeMs);
      forall p ensures p in Recent(entries, beforeMs) <==>
        exists i :: 0 <= i < |entries| && entries[i].path == p && IsRecent(entries[i], beforeMs)
      {
        if p in Recent(init, beforeMs) {
          var i :| 0 <= i < |init| && init[i].path == p && IsRecent(init[i], beforeMs);
          assert entries[i] == init[i];
        }
        if exists i :: 0 <= i < |entries| && entries[i].path == p && IsRecent(entries[i], beforeMs) {
          var i :| 0 <= i < |entries| && entries[i].path == p && IsRecent(entries[i], beforeMs);
          if i < |init| {
            assert init[i] == entries[i];
          }
        }
      }
    }
  }

  /** Positions of the entries `Recent` picks. */
  ghost function PickIndices(entries: seq<DirEntry>, beforeMs: int): seq<nat> {
    if entries == [] then []
    else
      var init := PickIndices(entries[..|entries| - 1], beforeMs);
      if IsRecent(entries[|entries| - 1], beforeMs) then init + [|entries| - 1] else init
  }

  /** Each pick is the path of a recent regular file at a position of the
      listing, the positions strictly increasing. */
  lemma {:induction false} PicksInOrder(entries: seq<DirEntry>, beforeMs: int)
    ensures |PickIndices(entries, beforeMs)| == |Recent(entries, beforeMs)|
    ensures forall j :: 0 <= j < |PickIndices(entries, beforeMs)| ==>
      var i := PickIndices(entries, beforeMs)[j];
      i < |entries| && IsRecent(entries[i], beforeMs) && entries[i].path == Recent(entries, beforeMs)[j]
    ensures forall j, k :: 0 <= j < k < |PickIndices(entries, beforeMs)| ==>
      PickIndices(entries, beforeMs)[j] < PickIndices(entries, beforeMs)[k]
  {
    if entries != [] {
      var n := |entries| - 1;
      var init := entries[..n];
      PicksInOrder(init, beforeMs);
      var idx := PickIndices(init, beforeMs);
      assert forall j :: 0 <= j < |idx| ==> entries[idx[j]] == init[idx[j]];
    }
  }

  /** Every recent regular file of the listing is picked, and nothing else is. */
  lemma {:induction false} PicksComplete(entries: seq<DirEntry>, beforeMs: int)
    ensures forall i :: 0 <= i < |entries| ==>
      (i in PickIndices(entries, beforeMs) <==> IsRecent(entries[i], beforeMs))
  {
    if entries != [] {
      var n := |entries| - 1;
      var init := entries[..n];
      PicksComplete(init, beforeMs);
      PicksBelow(init, beforeMs);
      assert forall i :: 0 <= i < n ==> entries[i] == init[i];
    }
  }

  lemma {:induction false} PicksBelow(entries: seq<DirEntry>, beforeMs: int)
    ensures forall i :: i in PickIndices(entries, beforeMs) ==> i < |entries|
  {
    if entries != [] {
      PicksBelow(entries[..|entries| - 1], beforeMs);
    }
  }

  /** `new_files_since` keeps the listing's order: the picked paths are those of
      the recent regular files, in the order of their positions, none skipped. */
  lemma RecentOrder(entries: seq<DirEntry>, beforeMs: int)
    ensures exists idx: seq<nat> ::
      && |idx| == |Recent(entries, beforeMs)|
      && (forall j :: 0 <= j < |idx| ==> idx[j] < |entries| && entries[idx[j]].path == Recent(entries, beforeMs)[j])
      && (forall j, k :: 0 <= j < k < |idx| ==> idx[j] < idx[k])
      && (forall i :: 0 <= i < |entries| ==> (i in idx <==> IsRecent(entries[i], beforeMs)))
  {
    PicksInOrder(entries, beforeMs);
    PicksComplete(entries, beforeMs);
    var idx := PickIndices(entries, beforeMs);
    assert |idx| == |Recent(entries, beforeMs)|;
  }
}
