/** Names of rotated log files, the scan that recognises them, and a retention run on a directory
    (`backupName`, `prefixAndExt`, `timeFromName`, `oldLogFiles`, `millRunOnce`, zlog/lumberjack.go). */
module LogNames {
  import opened Lists
  import opened Retention

  datatype Option<+X> = None | Some(value: X)

  predicate StartsWith(s: string, x: string) {
    x <= s
  }

  // ----- Names -----

  /** `filepath.Ext` on a base name: the part from the last dot on. */
  function Ext(filename: string): (e: string)
    ensures EndsWith(filename, e)
    ensures e != [] ==> e[0] == '.' && '.' !in e[1..]
  {
    if filename == [] then []
    else if '.' !in filename[1..] then (if filename[0] == '.' then filename else [])
    else
      var e := Ext(filename[1..]);
      assert filename[|filename| - |e|..] == filename[1..][|filename| - 1 - |e|..];
      e
  }

  function Base(filename: string): string {
    filename[..|filename| - |Ext(filename)|]
  }

  /** `backupName`: the printed time between base and extension. */
  function BackupName(filename: string, stamp: string): string {
    Base(filename) + "-" + stamp + Ext(filename)
  }

  /** `prefixAndExt` of the undated name. */
  function Prefix(filename: string): string {
    Base(filename) + "-"
  }

  /** Reads dates out of strings; the layout is a parameter. */
  type Parser = string -> Option<int>

  /** `timeFromName`. Prefix and extension of a shorter name would overlap; see `NoOverlap`. */
  function TimeFromName(parse: Parser, name: string, prefix: string, ext: string): Option<int> {
    if !StartsWith(name, prefix) || !EndsWith(name, ext) || |name| < |prefix| + |ext| then None
    else parse(name[|prefix|..|name| - |ext|])
  }

  /** The two attempts of the scan: as a plain file, then as a compressed one. */
  function Recognise(parse: Parser, name: string, prefix: string, ext: string): Option<int> {
    var t := TimeFromName(parse, name, prefix, ext);
    if t.Some? then t else TimeFromName(parse, name, prefix, ext + GZ)
  }

  lemma TailCharacters(s: string, x: string)
    requires EndsWith(s, x)
    ensures forall i :: |s| - |x| <= i < |s| ==> s[i] in x
  {
    forall i | |s| - |x| <= i < |s| ensures s[i] in x {
      assert s[i] == s[|s| - |x|..][i - (|s| - |x|)];
    }
  }

  lemma TailOfTail(s: string, x: string, y: string)
    ensures EndsWith(s, x + y) ==> EndsWith(s, y)
  {
    if EndsWith(s, x + y) {
      assert s[|s| - |x + y|..][|x|..] == s[|s| - |y|..];
      assert (x + y)[|x|..] == y;
    }
  }

  /** Cutting a name never runs past its ends, for an extension without a dash. */
  lemma NoOverlap(name: string, base: string, ext: string)
    requires StartsWith(name, base + "-") && EndsWith(name, ext) && '-' !in ext
    ensures |name| >= |base| + 1 + |ext|
  {
    assert name[|base|] == (base + "-")[|base|];
    TailCharacters(name, ext);
  }

  /** The slice in `timeFromName` would run past its ends: prefix and extension overlap in the name. */
  predicate Overlaps(name: string, prefix: string, ext: string) {
    StartsWith(name, prefix) && EndsWith(name, ext) && |name| < |prefix| + |ext|
  }

  /** The last `k` characters of the prefix are the first of the extension. */
  predicate TailIsHead(prefix: string, ext: string, k: nat) {
    0 < k <= |prefix| && k <= |ext| && prefix[|prefix| - k..] == ext[..k]
  }

  /** Some name makes the slice run past its ends exactly when some non-empty tail of the prefix is a head of
      the extension. */
  lemma OverlapIff(prefix: string, ext: string)
    ensures (exists name :: Overlaps(name, prefix, ext)) <==> (exists k :: TailIsHead(prefix, ext, k))
  {
    if name :| Overlaps(name, prefix, ext) {
      var k := |prefix| + |ext| - |name|;
      assert prefix[|prefix| - k..] == name[|prefix| - k..|prefix|] == name[|name| - |ext|..][..k];
      assert TailIsHead(prefix, ext, k);
    }
    if k: nat :| TailIsHead(prefix, ext, k) {
      var name := prefix + ext[k..];
      assert name[|name| - |ext|..] == prefix[|prefix| - k..] + ext[k..] == ext;
      assert Overlaps(name, prefix, ext);
    }
  }

  /** No date is followed by `.gz`: the layout does not accept trailing text. */
  ghost predicate NoTrailingGz(parse: Parser) {
    forall s :: parse(s).Some? ==> parse(s + GZ) == None
  }

  lemma CutBack(prefix: string, stamp: string, ext: string)
    ensures var name := prefix + stamp + ext;
            && StartsWith(name, prefix) && EndsWith(name, ext)
            && name[|prefix|..|name| - |ext|] == stamp
  {
  }

  /** The time written into a name is the time read back from it, plain or compressed. */
  lemma NameRoundTrip(parse: Parser, filename: string, stamp: string, t: int)
    requires parse(stamp) == Some(t)
    ensures TimeFromName(parse, BackupName(filename, stamp), Prefix(filename), Ext(filename)) == Some(t)
    ensures TimeFromName(parse, BackupName(filename, stamp) + GZ, Prefix(filename), Ext(filename) + GZ) == Some(t)
  {
    CutBack(Prefix(filename), stamp, Ext(filename));
    CutBack(Prefix(filename), stamp, Ext(filename) + GZ);
    assert BackupName(filename, stamp) == Prefix(filename) + stamp + Ext(filename);
    assert BackupName(filename, stamp) + GZ == Prefix(filename) + stamp + (Ext(filename) + GZ);
  }

  ghost predicate IsExt(ext: string) {
    ext != [] ==> ext[0] == '.' && '.' !in ext[1..]
  }

  /** A compressed name does not end with the plain extension, unless there is none. */
  lemma GzHidesExt(name: string, ext: string)
    requires IsExt(ext) && ext != [] && EndsWith(name, ext) && !EndsWith(name, GZ)
    ensures !EndsWith(name + GZ, ext)
  {
    var n, e := |name|, |ext|;
    var tail := (name + GZ)[n + 3 - e..];
    if e > 3 {
      assert tail[e - 3] == '.' && ext[e - 3] == ext[1..][e - 4];
    } else if e == 3 {
      assert tail == GZ;
    } else {
      assert tail[0] == GZ[3 - e];
    }
  }

  /** Both attempts of the scan on a compressed name, in terms of the plain name. */
  lemma GzAttempts(name: string, prefix: string, ext: string)
    requires IsExt(ext) && !EndsWith(name, GZ)
    requires StartsWith(name, prefix) && EndsWith(name, ext) && |name| >= |prefix| + |ext|
    ensures var g, stamp := name + GZ, name[|prefix|..|name| - |ext|];
            && StartsWith(g, prefix) && EndsWith(g, ext + GZ)
            && g[|prefix|..|g| - |ext + GZ|] == stamp
            && (if ext == [] then g[|prefix|..|g| - |ext|] == stamp + GZ else !EndsWith(g, ext))
  {
    assert (name + GZ)[|name| - |ext|..] == name[|name| - |ext|..] + GZ;
    if ext != [] {
      GzHidesExt(name, ext);
    }
  }

  /** Compressing a recognised plain file gives a file recognised at the same time. */
  lemma GzRecognised(parse: Parser, name: string, prefix: string, ext: string)
    requires IsExt(ext) && NoTrailingGz(parse) && !EndsWith(name, GZ)
    requires Recognise(parse, name, prefix, ext).Some?
    ensures Recognise(parse, name + GZ, prefix, ext) == Recognise(parse, name, prefix, ext)
  {
    TailOfTail(name, ext, GZ);
    GzAttempts(name, prefix, ext);
    hide EndsWith, StartsWith, IsExt;
  }

  lemma StemOfGz(name: string)
    ensures Stem(name + GZ) == name && EndsWith(name + GZ, GZ)
  {
  }

  // ----- zlog/lumberjack.go:487-494 as written: the prefix of an already dated name -----

  /** What the source takes prefix and extension of: `filename()` has the current time in it already. */
  function WrittenPrefix(filename: string, nowStamp: string): string {
    Prefix(BackupName(filename, nowStamp))
  }

  function WrittenExt(filename: string, nowStamp: string): string {
    Ext(BackupName(filename, nowStamp))
  }

  /** What of the current time is left in the written prefix: all of it, unless the file has no extension
      and the fraction of a second passes for one. */
  function Kept(filename: string, nowStamp: string): string {
    if Ext(filename) != [] then nowStamp else Base(nowStamp)
  }

  lemma NoExtIff(s: string)
    ensures Ext(s) == [] <==> '.' !in s
  {
    if '.' in s {
      HasExt(s);
    }
    var e := Ext(s);
    if e != [] {
      assert s[|s| - |e|] == e[0];
    }
  }

  lemma {:induction false} HasExt(s: string)
    requires '.' in s
    ensures Ext(s) != []
  {
    if '.' in s[1..] {
      HasExt(s[1..]);
    } else {
      assert s == [s[0]] + s[1..];
    }
  }

  lemma ExtStep(s: string)
    requires s != []
    ensures '.' in s[1..] ==> Ext(s) == Ext(s[1..])
    ensures '.' !in s[1..] ==> Ext(s) == if s[0] == '.' then s else []
  {
  }

  lemma TailOfSum(x: string, y: string)
    requires x != []
    ensures x + y != [] && (x + y)[0] == x[0] && (x + y)[1..] == x[1..] + y
  {
  }

  lemma {:induction false} ExtOfAppended(x: string, e: string)
    requires IsExt(e) && e != []
    ensures Ext(x + e) == e
  {
    hide Ext;
    if x == [] {
      assert x + e == e;
      ExtStep(e);
    } else {
      ExtOfAppended(x[1..], e);
      TailOfSum(x, e);
      assert (x[1..] + e)[|x| - 1] == '.';
      ExtStep(x + e);
    }
  }

  lemma {:induction false} ExtOfRest(x: string, s: string)
    requires '.' !in x
    ensures Ext(x + s) == Ext(s)
  {
    hide Ext;
    if x == [] {
      assert x + s == s;
    } else {
      ExtOfRest(x[1..], s);
      TailOfSum(x, s);
      NoExtIff(x[1..] + s);
      assert x[0] in x;
      ExtStep(x + s);
    }
  }

  lemma WrittenParts(filename: string, nowStamp: string)
    ensures WrittenPrefix(filename, nowStamp) == Prefix(filename) + (Kept(filename, nowStamp) + "-")
    ensures WrittenExt(filename, nowStamp) == if Ext(filename) != [] then Ext(filename) else Ext(nowStamp)
  {
    hide Ext;
    var e := Ext(filename);
    var dated := BackupName(filename, nowStamp);
    NoExtIff(filename);
    if e != [] {
      ExtOfAppended(Prefix(filename) + nowStamp, e);
      assert Base(dated) == Prefix(filename) + nowStamp;
    } else {
      assert Base(filename) == filename && dated == (filename + "-") + nowStamp;
      ExtOfRest(filename + "-", nowStamp);
      assert Base(dated) == (filename + "-") + Base(nowStamp);
    }
  }

  lemma CommonFront(x: string, y: string, z: string)
    ensures x + y <= x + z <==> y <= z
  {
    if x + y <= x + z {
      assert (x + z)[|x|..][..|y|] == (x + y)[|x|..];
      assert (x + z)[|x|..] == z && (x + y)[|x|..] == y;
    }
  }

  /** A backup, with or without anything behind its name, begins with the written prefix exactly when its
      own time goes on from the current one with a dash; otherwise both attempts of the scan fail. */
  lemma WrittenPrefixIff(parse: Parser, filename: string, stamp: string, nowStamp: string, suffix: string)
    ensures var name, w := BackupName(filename, stamp) + suffix, WrittenPrefix(filename, nowStamp);
            && (StartsWith(name, w) <==> Kept(filename, nowStamp) + "-" <= stamp + Ext(filename) + suffix)
            && (!StartsWith(name, w) ==> Recognise(parse, name, w, WrittenExt(filename, nowStamp)) == None)
  {
    hide Ext, Kept;
    var name := BackupName(filename, stamp) + suffix;
    WrittenParts(filename, nowStamp);
    assert name == Prefix(filename) + (stamp + Ext(filename) + suffix);
    CommonFront(Prefix(filename), Kept(filename, nowStamp) + "-", stamp + Ext(filename) + suffix);
  }

  /** Two times printed in one layout: as long, and with as long a fraction. */
  predicate SameLayout(stamp: string, nowStamp: string) {
    |stamp| == |nowStamp| && |Ext(stamp)| == |Ext(nowStamp)|
  }

  /** With one layout the written scan recognises no backup at all, plain or compressed, whatever its time. */
  lemma WrittenPrefixFindsNothing(parse: Parser, filename: string, stamp: string, nowStamp: string, suffix: string)
    requires SameLayout(stamp, nowStamp) && (suffix == [] || suffix == GZ)
    ensures Recognise(parse, BackupName(filename, stamp) + suffix,
                      WrittenPrefix(filename, nowStamp), WrittenExt(filename, nowStamp)) == None
  {
    WrittenPrefixIff(parse, filename, stamp, nowStamp, suffix);
    var k, tail := Kept(filename, nowStamp) + "-", stamp + Ext(filename) + suffix;
    var i := |k| - 1;
    assert k[i] == '-';
    assert i < |tail| ==> tail[i] == '.' by {
      DotAt(filename, stamp, nowStamp, suffix);
    }
  }

  lemma DotAt(filename: string, stamp: string, nowStamp: string, suffix: string)
    requires SameLayout(stamp, nowStamp) && (suffix == [] || suffix == GZ)
    ensures var i, tail := |Kept(filename, nowStamp)|, stamp + Ext(filename) + suffix;
            i < |tail| ==> tail[i] == '.'
  {
    var i, e := |Kept(filename, nowStamp)|, Ext(stamp);
    if Ext(filename) == [] && e != [] {
      assert stamp[i..] == e;
      assert stamp[i] == e[0];
    }
  }

  // ----- The file being written -----

  /** The undated name is no backup: a file of that name is never touched. */
  lemma UndatedIsNoBackup(parse: Parser, filename: string)
    ensures Recognise(parse, filename, Prefix(filename), Ext(filename)) == None
  {
    var base, ext := Base(filename), Ext(filename);
    assert filename == base + ext;
    CommonFront(base, "-", ext);
    assert base + [] == base;
  }

  // ----- A directory -----

  /** What the scan of a directory yields: every recognised file once, newest first. Among equal
      times the sort may choose any order. */
  ghost predicate Listing(dir: set<string>, parse: Parser, prefix: string, ext: string, files: seq<LogInfo>) {
    && NewestFirst(files)
    && (forall i, j :: 0 <= i < j < |files| ==> files[i].name != files[j].name)
    && (forall f :: f in files <==> f.name in dir && Recognise(parse, f.name, prefix, ext) == Some(f.time))
  }

  /** The recognised entries, in the order of the directory. */
  function Found(entries: seq<string>, parse: Parser, prefix: string, ext: string): seq<LogInfo> {
    if entries == [] then []
    else
      var n := |entries| - 1;
      var t := Recognise(parse, entries[n], prefix, ext);
      Found(entries[..n], parse, prefix, ext) + if t.Some? then [LogInfo(entries[n], t.value)] else []
  }

  /** `oldLogFiles` up to the sort. */
  method OldLogFiles(entries: seq<string>, parse: Parser, prefix: string, ext: string) returns (logFiles: seq<LogInfo>)
    ensures logFiles == Found(entries, parse, prefix, ext)
  {
    hide TimeFromName;
    logFiles := [];
    for i := 0 to |entries|
      invariant logFiles == Found(entries[..i], parse, prefix, ext)
    {
      assert entries[..i + 1][..i] == entries[..i];
      var t := TimeFromName(parse, entries[i], prefix, ext);
      if t.Some? {
        logFiles := logFiles + [LogInfo(entries[i], t.value)];
        continue;
      }
      t := TimeFromName(parse, entries[i], prefix, ext + GZ);
      if t.Some? {
        logFiles := logFiles + [LogInfo(entries[i], t.value)];
      }
    }
    assert entries[..|entries|] == entries;
  }

  ghost predicate Distinct(entries: seq<string>) {
    forall i, j :: 0 <= i < j < |entries| ==> entries[i] != entries[j]
  }

  lemma {:induction false} FoundMembers(entries: seq<string>, parse: Parser, prefix: string, ext: string)
    requires Distinct(entries)
    ensures forall f :: f in Found(entries, parse, prefix, ext)
                   <==> f.name in entries && Recognise(parse, f.name, prefix, ext) == Some(f.time)
    ensures forall f :: multiset(Found(entries, parse, prefix, ext))[f] <= 1
  {
    if entries != [] {
      var n := |entries| - 1;
      FoundMembers(entries[..n], parse, prefix, ext);
      SplitLast(entries);
      assert forall x :: x in entries <==> x in entries[..n] || x == entries[n];
      assert entries[n] !in entries[..n];
      hide Recognise, Distinct;
    }
  }

  lemma Once(files: seq<LogInfo>, i: nat, j: nat)
    requires i < j < |files| && multiset(files)[files[i]] <= 1
    ensures files[i] != files[j]
  {
    assert files == files[..j] + files[j..];
    assert files[i] in files[..j] && files[j] in files[j..];
  }

  lemma SameMembers(xs: seq<LogInfo>, ys: seq<LogInfo>)
    requires multiset(xs) == multiset(ys)
    ensures forall f :: f in xs <==> f in ys
  {
    assert forall f :: f in xs <==> f in multiset(xs);
    assert forall f :: f in ys <==> f in multiset(ys);
  }

  /** However the entries of a directory are sorted newest first, the scan is a listing of it. */
  lemma SortedScanIsListing(entries: seq<string>, parse: Parser, prefix: string, ext: string, files: seq<LogInfo>)
    requires Distinct(entries) && NewestFirst(files)
    requires multiset(files) == multiset(Found(entries, parse, prefix, ext))
    ensures Listing((set x | x in entries), parse, prefix, ext, files)
  {
    hide Recognise, Distinct, NewestFirst, Found;
    FoundMembers(entries, parse, prefix, ext);
    SameMembers(files, Found(entries, parse, prefix, ext));
    forall i, j | 0 <= i < j < |files| ensures files[i].name != files[j].name {
      Once(files, i, j);
      assert files[i] in files && files[j] in files;
    }
  }

  function Names(files: seq<LogInfo>): set<string> {
    set f | f in files :: f.name
  }

  function GzNames(files: seq<LogInfo>): set<string> {
    set f | f in files :: f.name + GZ
  }

  /** The directory after removing and compressing as planned, with all file operations succeeding. */
  function Carried(dir: set<string>, plan: Plan): set<string> {
    dir - Names(plan.removed) - Names(plan.compress) + GzNames(plan.compress)
  }

  /** After a run every file the scan finds is a kept backup, plain or compressed, at its old time. */
  lemma Survivor(dir: set<string>, parse: Parser, prefix: string, ext: string,
                 files: seq<LogInfo>, p: Policy, files': seq<LogInfo>, g: LogInfo) returns (f: LogInfo)
    requires IsExt(ext) && NoTrailingGz(parse) && Listing(dir, parse, prefix, ext, files)
    requires Listing(Carried(dir, Make(files, p)), parse, prefix, ext, files') && g in files'
    ensures f in Make(files, p).kept && g.time == f.time && Stem(g.name) == Stem(f.name)
    ensures p.compress ==> EndsWith(g.name, GZ)
  {
    var plan := Make(files, p);
    PlanCorrect(files, p);
    hide Make, NoTrailingGz;
    if g.name in GzNames(plan.compress) {
      f :| f in plan.compress && g.name == f.name + GZ;
      assert f in multiset(plan.kept) + multiset(plan.removed);
      assert f in files;
      GzRecognised(parse, f.name, prefix, ext);
      StemOfGz(f.name);
    } else {
      f := g;
      assert g.name in dir && g in files;
      assert g in multiset(plan.kept) + multiset(plan.removed);
      assert g !in plan.removed;
    }
  }

  lemma SurvivingStems(dir: set<string>, parse: Parser, prefix: string, ext: string,
                       files: seq<LogInfo>, p: Policy, files': seq<LogInfo>)
    requires IsExt(ext) && NoTrailingGz(parse) && Listing(dir, parse, prefix, ext, files)
    requires Listing(Carried(dir, Make(files, p)), parse, prefix, ext, files')
    ensures Stems(files') <= Stems(Make(files, p).kept)
    ensures forall g <- files' :: (p.hasAge ==> g.time >= p.cutoff) && (p.compress ==> EndsWith(g.name, GZ))
  {
    PlanCorrect(files, p);
    hide Make, NoTrailingGz, Listing;
    forall g | g in files'
      ensures Stem(g.name) in Stems(Make(files, p).kept)
      ensures (p.hasAge ==> g.time >= p.cutoff) && (p.compress ==> EndsWith(g.name, GZ))
    {
      var f := Survivor(dir, parse, prefix, ext, files, p, files', g);
    }
  }

  /** A plan for files that are few, young and compressed is to do nothing. */
  lemma NothingToDo(files: seq<LogInfo>, p: Policy)
    requires p.maxBackups > 0 ==> |Stems(files)| <= p.maxBackups
    requires forall g <- files :: (p.hasAge ==> g.time >= p.cutoff) && (p.compress ==> EndsWith(g.name, GZ))
    ensures Make(files, p).removed == [] && Make(files, p).compress == []
  {
    var k := PlanParts(files, p);
    if 0 < p.maxBackups < |files| {
      KeptPrefix(files, p.maxBackups, |files|);
      assert files[..|files|] == files;
    }
    assert files[..k] == files && files[k..] == [];
    var plan := Make(files, p);
    UncompressedMembers(plan.kept);
    NoMembers(plan.removed);
    NoMembers(plan.compress);
    hide AgeFilter, KeepCount, Stems;
  }

  lemma NoMembers(files: seq<LogInfo>)
    ensures (forall f :: f !in files) ==> files == []
  {
    assert files == [] || files[0] in files;
  }

  /** Retention is idempotent: a second run under the same policy and cutoff, whatever order the scan
      gives equal times, leaves the directory as the first run left it. */
  lemma SecondRunChangesNothing(dir: set<string>, parse: Parser, prefix: string, ext: string,
                                files: seq<LogInfo>, p: Policy, files': seq<LogInfo>)
    requires IsExt(ext) && NoTrailingGz(parse) && Listing(dir, parse, prefix, ext, files)
    requires Listing(Carried(dir, Make(files, p)), parse, prefix, ext, files')
    ensures var dir' := Carried(dir, Make(files, p)); Carried(dir', Make(files', p)) == dir'
  {
    hide Make, NoTrailingGz, Stems, Recognise;
    SurvivingStems(dir, parse, prefix, ext, files, p, files');
    PlanCorrect(files, p);
    Growing(Stems(files'), Stems(Make(files, p).kept));
    NothingToDo(files', p);
    NoNames();
  }

  lemma NoNames()
    ensures Names([]) == {} && GzNames([]) == {}
  {
  }

  /** What is not a backup is never removed and never compressed. */
  lemma OthersStay(dir: set<string>, parse: Parser, prefix: string, ext: string, files: seq<LogInfo>, p: Policy, name: string)
    requires Listing(dir, parse, prefix, ext, files) && name in dir && Recognise(parse, name, prefix, ext) == None
    ensures name in Carried(dir, Make(files, p))
  {
    PlannedAreListed(files, p);
    hide Make, Recognise, NewestFirst;
  }

  /** What becomes of each backup: a kept one is still there, as itself or, if it is to be compressed, as its copy
      only; a removed one is gone, unless the copy of a kept one took its name. */
  lemma EachBackup(dir: set<string>, parse: Parser, prefix: string, ext: string, files: seq<LogInfo>, p: Policy, f: LogInfo)
    requires Listing(dir, parse, prefix, ext, files) && f in files
    ensures var plan, packed := Make(files, p), p.compress && !EndsWith(f.name, GZ);
            var after := Carried(dir, plan);
            && (f in plan.kept && !packed ==> f.name in after)
            && (f in plan.kept && packed ==> f.name + GZ in after && f.name !in after)
            && (f !in plan.kept && f.name in after ==>
                  exists h :: h in plan.kept && p.compress && !EndsWith(h.name, GZ) && h.name + GZ == f.name)
  {
    var plan, packed := Make(files, p), p.compress && !EndsWith(f.name, GZ);
    PlanCorrect(files, p);
    RemovedByName(files, p, f);
    hide Make, Recognise, NewestFirst;
    if f in plan.kept && packed {
      assert f in plan.compress;
      assert f.name + GZ in GzNames(plan.compress);
      NotItsOwnCopy(plan.compress, f.name);
    }
  }

  // ----- The file being written, in a retention run -----

  /** The file being written has a dated name (zlog/lumberjack.go:323), so the undated prefix takes it for a
      backup of the time it was opened, and a run spares it exactly when it is kept and `Compress` is not set;
      where times identify backups, exactly when it is young enough, one of the newest, and `Compress` is not
      set. Kept and compressed, it is replaced by its compressed copy. */
  lemma ActiveSpared(dir: set<string>, parse: Parser, filename: string, stamp: string, t: int,
                     files: seq<LogInfo>, p: Policy)
    requires parse(stamp) == Some(t) && !EndsWith(BackupName(filename, stamp), GZ)
    requires Listing(dir, parse, Prefix(filename), Ext(filename), files) && BackupName(filename, stamp) in dir
    ensures var active, plan := LogInfo(BackupName(filename, stamp), t), Make(files, p);
            && active in files
            && (active.name in Carried(dir, plan) <==> active in plan.kept && !p.compress)
            && (active in plan.kept && p.compress ==> active.name + GZ in Carried(dir, plan))
            && (TimesIdentify(files) ==>
                  (active.name in Carried(dir, plan)
                   <==> !p.compress && (p.hasAge ==> t >= p.cutoff)
                        && (p.maxBackups > 0 ==> NewerBackups(files, t) < p.maxBackups)))
  {
    var active, plan := LogInfo(BackupName(filename, stamp), t), Make(files, p);
    NameRoundTrip(parse, filename, stamp, t);
    NotItsOwnCopy(plan.compress, active.name);
    PlanCorrect(files, p);
    RemovedByName(files, p, active);
    hide Make, Recognise, TimesIdentify, NewerBackups, NewestFirst;
    if TimesIdentify(files) {
      NewestSurvive(files, p, active);
    }
    if active in plan.kept && p.compress {
      assert active in plan.compress;
      assert active.name in Names(plan.compress) && active.name + GZ in GzNames(plan.compress);
    }
  }

  /** With distinct names, the names of removed files are those of listed files that are not kept. */
  lemma RemovedByName(files: seq<LogInfo>, p: Policy, f: LogInfo)
    requires NewestFirst(files) && (forall i, j :: 0 <= i < j < |files| ==> files[i].name != files[j].name) && f in files
    ensures f.name in Names(Make(files, p).removed) <==> f !in Make(files, p).kept
    ensures f.name in Names(Make(files, p).compress) <==> f in Make(files, p).compress
  {
    var plan := Make(files, p);
    PlanPartition(files, p);
    PlannedAreListed(files, p);
    hide Make, NewestFirst;
    SameNameSame(files, f);
    KeptOrRemoved(files, plan.kept, plan.removed, f);
  }

  lemma SameNameSame(files: seq<LogInfo>, f: LogInfo)
    requires (forall i, j :: 0 <= i < j < |files| ==> files[i].name != files[j].name) && f in files
    ensures forall g <- files :: g.name == f.name ==> g == f
    ensures multiset(files)[f] == 1
  {
    var i :| 0 <= i < |files| && files[i] == f;
    assert files == files[..i] + ([f] + files[i + 1..]);
    assert f !in files[..i] && f !in files[i + 1..];
  }

  lemma KeptOrRemoved(files: seq<LogInfo>, kept: seq<LogInfo>, removed: seq<LogInfo>, f: LogInfo)
    requires multiset(kept) + multiset(removed) == multiset(files) && multiset(files)[f] == 1
    ensures f in removed <==> f !in kept
  {
    assert multiset(kept)[f] + multiset(removed)[f] == 1;
    assert f in kept <==> f in multiset(kept);
    assert f in removed <==> f in multiset(removed);
  }

  /** A directory with nothing in it but the file being written. */
  lemma LoneActive(parse: Parser, filename: string, stamp: string, t: int)
    requires parse(stamp) == Some(t)
    ensures Listing({BackupName(filename, stamp)}, parse, Prefix(filename), Ext(filename), [LogInfo(BackupName(filename, stamp), t)])
  {
    NameRoundTrip(parse, filename, stamp, t);
    hide Recognise, BackupName;
    var files := [LogInfo(BackupName(filename, stamp), t)];
    assert forall f :: f in files <==> f == files[0];
  }

  const HOUR := 60 * 60 * 1_000_000_000

  /** The plan for one file, with no limit on the number of backups. */
  lemma PlanForOne(f: LogInfo, p: Policy)
    requires p.maxBackups == 0
    ensures p.hasAge && f.time < p.cutoff ==> Make([f], p) == Plan([], [f], [])
    ensures !p.hasAge && p.compress && !EndsWith(f.name, GZ) ==> Make([f], p) == Plan([f], [], [f])
    ensures Names([f]) == {f.name} && GzNames([f]) == {f.name + GZ}
  {
    hide EndsWith, AgeFilter, Uncompressed, KeepCount;
    PassesForOne(f, p.cutoff);
    assert [f][..1] == [f] && [f][1..] == [];
    assert f in [f];
  }

  lemma PassesForOne(f: LogInfo, cutoff: int)
    ensures AgeFilter([f], cutoff, true) == if f.time < cutoff then [f] else []
    ensures AgeFilter([f], cutoff, false) == if f.time < cutoff then [] else [f]
    ensures Uncompressed([f]) == if EndsWith(f.name, GZ) then [] else [f]
    ensures Uncompressed([]) == []
  {
    hide EndsWith;
    assert [f][..0] == [];
  }

  /** Eight hours west of UTC, with local times and a layout of the date alone: the file of 4 November, open at
      eight in the evening, counts as opened at midnight UTC, 28 hours ago. With `MaxAge` 1 the run removes it. */
  lemma ActiveIsRemoved(parse: Parser)
    requires parse("2016-11-04") == Some(0)
    ensures var name := BackupName("server.log", "2016-11-04");
            var plan := Make([LogInfo(name, 0)], PolicyOf(0, 1, 28 * HOUR, false));
            && Listing({name}, parse, Prefix("server.log"), Ext("server.log"), [LogInfo(name, 0)])
            && Carried({name}, plan) == {}
  {
    hide BackupName, Prefix, Ext, Listing, Make, Names, GzNames;
    var name := BackupName("server.log", "2016-11-04");
    LoneActive(parse, "server.log", "2016-11-04", 0);
    PlanForOne(LogInfo(name, 0), PolicyOf(0, 1, 28 * HOUR, false));
    NoNames();
  }

  /** The first run with `Compress` on a new log: the file being written is replaced by a compressed copy. */
  lemma ActiveIsCompressed(parse: Parser)
    requires parse("2016-11-04") == Some(0)
    ensures var name := BackupName("server.log", "2016-11-04");
            var plan := Make([LogInfo(name, 0)], PolicyOf(0, 0, 20 * HOUR, true));
            && Listing({name}, parse, Prefix("server.log"), Ext("server.log"), [LogInfo(name, 0)])
            && Carried({name}, plan) == {name + GZ}
  {
    hide BackupName, Prefix, Ext, Listing, Make, Names, GzNames, EndsWith;
    var name := BackupName("server.log", "2016-11-04");
    LoneActive(parse, "server.log", "2016-11-04", 0);
    PlainName();
    PlanForOne(LogInfo(name, 0), PolicyOf(0, 0, 20 * HOUR, true));
    NoNames();
  }

  lemma PlainName()
    ensures !EndsWith(BackupName("server.log", "2016-11-04"), GZ)
  {
    ExtOfAppended("server", ".log");
    assert "server" + ".log" == "server.log";
    var name := BackupName("server.log", "2016-11-04");
    assert name[|name| - 1] == 'g' && GZ[2] == 'z';
  }

  lemma NotItsOwnCopy(files: seq<LogInfo>, name: string)
    requires !EndsWith(name, GZ)
    ensures name !in GzNames(files)
  {
    forall f | f in files ensures f.name + GZ != name {
      StemOfGz(f.name);
    }
  }
}
