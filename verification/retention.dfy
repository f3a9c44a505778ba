/** Which rotated log files are removed, kept and compressed (`millRunOnce`, zlog/lumberjack.go). */
module Retention {
  import opened Lists

  const GZ: string := ".gz"

  predicate EndsWith(s: string, x: string) {
    |x| <= |s| && s[|s| - |x|..] == x
  }

  /** A file found by the scan: its name and the time parsed out of it. */
  datatype LogInfo = LogInfo(name: string, time: int)

  /** `x` and `x.gz` are one backup. */
  function Stem(name: string): string {
    if EndsWith(name, GZ) then name[..|name| - |GZ|] else name
  }

  ghost predicate NewestFirst(files: seq<LogInfo>) {
    forall i, j :: 0 <= i < j < |files| ==> files[i].time >= files[j].time
  }

  function Stems(files: seq<LogInfo>): set<string> {
    set f | f in files :: Stem(f.name)
  }

  // ----- What the three passes leave -----

  /** How many leading files are kept: up to the one whose name would be one too many. */
  function KeepCount(files: seq<LogInfo>, max: int): (k: nat)
    ensures k <= |files|
  {
    if files == [] then 0
    else
      var n := |files| - 1;
      var k := KeepCount(files[..n], max);
      if k == n && |Stems(files)| <= max then n + 1 else k
  }

  /** The files not before the cutoff, or before it, in order. */
  function AgeFilter(files: seq<LogInfo>, cutoff: int, stale: bool): seq<LogInfo> {
    if files == [] then []
    else
      var n := |files| - 1;
      AgeFilter(files[..n], cutoff, stale) + if (files[n].time < cutoff) == stale then [files[n]] else []
  }

  function Uncompressed(files: seq<LogInfo>): seq<LogInfo> {
    if files == [] then []
    else
      var n := |files| - 1;
      Uncompressed(files[..n]) + if EndsWith(files[n].name, GZ) then [] else [files[n]]
  }

  /** `MaxBackups`, the cutoff if `MaxAge` is set, `Compress`. */
  datatype Policy = Policy(maxBackups: int, hasAge: bool, cutoff: int, compress: bool)

  datatype Plan = Plan(kept: seq<LogInfo>, removed: seq<LogInfo>, compress: seq<LogInfo>)

  function Make(files: seq<LogInfo>, p: Policy): Plan {
    var k := if 0 < p.maxBackups < |files| then KeepCount(files, p.maxBackups) else |files|;
    var left := files[..k];
    var kept := if p.hasAge then AgeFilter(left, p.cutoff, false) else left;
    var aged := if p.hasAge then AgeFilter(left, p.cutoff, true) else [];
    Plan(kept, files[k..] + aged, if p.compress then Uncompressed(kept) else [])
  }

  const DAY := 24 * 60 * 60 * 1_000_000_000

  function PolicyOf(maxBackups: int, maxAge: int, now: int, compress: bool): Policy {
    Policy(maxBackups, maxAge > 0, now - DAY * maxAge, compress)
  }

  lemma CountStep(files: seq<LogInfo>, i: nat, max: int)
    requires i < |files|
    ensures Stems(files[..i + 1]) == Stems(files[..i]) + {Stem(files[i].name)}
    ensures var k := KeepCount(files[..i], max);
            KeepCount(files[..i + 1], max) == if k == i && |Stems(files[..i + 1])| <= max then i + 1 else k
  {
    assert files[..i + 1][..i] == files[..i] && files[..i + 1] == files[..i] + [files[i]];
    assert forall f :: f in files[..i + 1] <==> f in files[..i] || f == files[i];
  }

  /** The scan of the source: the set of names seen so far decides, file by file. */
  method CountPass(files: seq<LogInfo>, max: int) returns (remaining: seq<LogInfo>, remove: seq<LogInfo>)
    ensures remaining == files[..KeepCount(files, max)] && remove == files[KeepCount(files, max)..]
  {
    hide Stems, KeepCount, Stem;
    NothingCounted(max);
    var preserved: set<string> := {};
    remaining, remove := [], [];
    for i := 0 to |files|
      invariant preserved == Stems(files[..i])
      invariant var k := KeepCount(files[..i], max); remaining == files[..k] && remove == files[k..i]
      invariant KeepCount(files[..i], max) < i ==> |preserved| > max
    {
      CountStep(files, i, max);
      Growing(preserved, preserved + {Stem(files[i].name)});
      var f := files[i];
      preserved := preserved + {Stem(f.name)};
      if |preserved| > max {
        remove := remove + [f];
      } else {
        remaining := remaining + [f];
      }
    }
    assert files[..|files|] == files;
  }

  lemma NothingCounted(max: int)
    ensures Stems([]) == {} && KeepCount([], max) == 0
  {
  }

  lemma Growing(s: set<string>, t: set<string>)
    requires s <= t
    ensures |s| <= |t|
  {
    assert t == s + (t - s);
  }

  method AgePass(files: seq<LogInfo>, cutoff: int) returns (remaining: seq<LogInfo>, remove: seq<LogInfo>)
    ensures remaining == AgeFilter(files, cutoff, false) && remove == AgeFilter(files, cutoff, true)
  {
    remaining, remove := [], [];
    for i := 0 to |files|
      invariant remaining == AgeFilter(files[..i], cutoff, false)
      invariant remove == AgeFilter(files[..i], cutoff, true)
    {
      assert files[..i + 1][..i] == files[..i];
      if files[i].time < cutoff {
        remove := remove + [files[i]];
      } else {
        remaining := remaining + [files[i]];
      }
    }
    assert files[..|files|] == files;
  }

  method CompressPass(files: seq<LogInfo>) returns (compress: seq<LogInfo>)
    ensures compress == Uncompressed(files)
  {
    compress := [];
    for i := 0 to |files|
      invariant compress == Uncompressed(files[..i])
    {
      assert files[..i + 1][..i] == files[..i];
      if !EndsWith(files[i].name, GZ) {
        compress := compress + [files[i]];
      }
    }
    assert files[..|files|] == files;
  }

  /** `millRunOnce` up to the file operations. */
  method MillRunOnce(listed: seq<LogInfo>, maxBackups: int, maxAge: int, now: int, doCompress: bool)
    returns (remove: seq<LogInfo>, compress: seq<LogInfo>)
    ensures var plan := Make(listed, PolicyOf(maxBackups, maxAge, now, doCompress));
            remove == plan.removed && compress == plan.compress
  {
    hide KeepCount, AgeFilter, Uncompressed;
    remove, compress := [], [];
    if maxBackups == 0 && maxAge == 0 && !doCompress {
      assert listed[|listed|..] == [];
      return;
    }
    var files := listed;
    if maxBackups > 0 && maxBackups < |files| {
      files, remove := CountPass(files, maxBackups);
    } else {
      assert listed[..|listed|] == listed && listed[|listed|..] == [];
    }
    if maxAge > 0 {
      var cutoff := now - DAY * maxAge;
      var aged;
      files, aged := AgePass(files, cutoff);
      remove := remove + aged;
    }
    if doCompress {
      compress := CompressPass(files);
    }
  }

  // ----- What the plan is worth -----

  /** A leading part is kept exactly when it has few enough names. */
  lemma {:induction false} KeptPrefix(files: seq<LogInfo>, max: int, j: nat)
    requires 1 <= j <= |files|
    ensures j <= KeepCount(files, max) <==> |Stems(files[..j])| <= max
  {
    hide Stems, KeepCount;
    var n := |files| - 1;
    LastCounted(files, max);
    if j <= n {
      KeptPrefix(files[..n], max, j);
      assert files[..n][..j] == files[..j];
    } else {
      assert files[..j] == files;
      if n > 0 {
        KeptPrefix(files[..n], max, n);
        assert files[..n][..n] == files[..n];
      } else {
        NothingCounted(max);
        assert files[..n] == [];
      }
    }
  }

  lemma LastCounted(files: seq<LogInfo>, max: int)
    requires files != []
    ensures var n := |files| - 1;
            var k := KeepCount(files[..n], max);
            && KeepCount(files, max) == (if k == n && |Stems(files)| <= max then n + 1 else k)
            && |Stems(files[..n])| <= |Stems(files)|
  {
    var n := |files| - 1;
    assert files[..n + 1] == files;
    CountStep(files, n, max);
    Growing(Stems(files[..n]), Stems(files));
    hide Stems, KeepCount;
  }

  lemma KeepCountWithin(files: seq<LogInfo>, max: int)
    requires max >= 0
    ensures |Stems(files[..KeepCount(files, max)])| <= max
  {
    var k := KeepCount(files, max);
    if k == 0 {
      assert Stems(files[..0]) == {};
    } else {
      KeptPrefix(files, max, k);
    }
  }

  lemma {:induction false} AgeMembers(files: seq<LogInfo>, cutoff: int)
    ensures forall f :: f in AgeFilter(files, cutoff, false) <==> f in files && f.time >= cutoff
    ensures forall f :: f in AgeFilter(files, cutoff, true) <==> f in files && f.time < cutoff
  {
    if files != [] {
      var n := |files| - 1;
      AgeMembers(files[..n], cutoff);
      SplitLast(files);
      assert forall f :: f in files <==> f in files[..n] || f == files[n];
    }
  }

  lemma {:induction false} AgePartition(files: seq<LogInfo>, cutoff: int)
    ensures multiset(AgeFilter(files, cutoff, false)) + multiset(AgeFilter(files, cutoff, true)) == multiset(files)
  {
    if files != [] {
      AgePartition(files[..|files| - 1], cutoff);
      SplitLast(files);
    }
  }

  lemma {:induction false} UncompressedMembers(files: seq<LogInfo>)
    ensures forall f :: f in Uncompressed(files) <==> f in files && !EndsWith(f.name, GZ)
  {
    if files != [] {
      var n := |files| - 1;
      UncompressedMembers(files[..n]);
      SplitLast(files);
      assert forall f :: f in files <==> f in files[..n] || f == files[n];
    }
  }

  lemma PlanParts(files: seq<LogInfo>, p: Policy) returns (k: nat)
    ensures k == (if 0 < p.maxBackups < |files| then KeepCount(files, p.maxBackups) else |files|) <= |files|
    ensures forall f :: f in Make(files, p).kept <==> f in files[..k] && (p.hasAge ==> f.time >= p.cutoff)
    ensures forall f :: f in Make(files, p).removed <==> f in files[k..] || (f in files[..k] && p.hasAge && f.time < p.cutoff)
  {
    hide AgeFilter, KeepCount, Uncompressed;
    k := if 0 < p.maxBackups < |files| then KeepCount(files, p.maxBackups) else |files|;
    AgeMembers(files[..k], p.cutoff);
  }

  lemma PlanPartition(files: seq<LogInfo>, p: Policy)
    ensures multiset(Make(files, p).kept) + multiset(Make(files, p).removed) == multiset(files)
  {
    hide AgeFilter, KeepCount, Uncompressed;
    var k := if 0 < p.maxBackups < |files| then KeepCount(files, p.maxBackups) else |files|;
    AgePartition(files[..k], p.cutoff);
    SplitMembers(files, k);
  }

  lemma PlannedAreListed(files: seq<LogInfo>, p: Policy)
    ensures forall f :: f in Make(files, p).removed || f in Make(files, p).compress ==> f in files
  {
    var k := PlanParts(files, p);
    SplitMembers(files, k);
    UncompressedMembers(Make(files, p).kept);
    hide AgeFilter, KeepCount, Uncompressed;
  }

  lemma SubsetSize(fs: seq<LogInfo>, gs: seq<LogInfo>)
    requires forall f <- fs :: f in gs
    ensures |Stems(fs)| <= |Stems(gs)|
  {
    Growing(Stems(fs), Stems(gs));
  }

  lemma {:induction false} StemsAtMostFiles(files: seq<LogInfo>)
    ensures |Stems(files)| <= |files|
  {
    if files == [] {
      assert Stems(files) == {};
    } else {
      var n := |files| - 1;
      StemsAtMostFiles(files[..n]);
      SplitLast(files);
      assert Stems(files) == Stems(files[..n]) + {Stem(files[n].name)};
    }
  }

  /** For every newest-first listing: kept and removed files are the listed files, each once; at most
      `MaxBackups` names are kept, counting a file and its compressed form once; nothing kept is
      past its age; nothing removed is newer than anything kept; all that is kept and not yet
      compressed will be, if asked for. */
  lemma PlanCorrect(files: seq<LogInfo>, p: Policy)
    requires NewestFirst(files)
    ensures var plan := Make(files, p);
            && multiset(plan.kept) + multiset(plan.removed) == multiset(files)
            && (p.maxBackups > 0 ==> |Stems(plan.kept)| <= p.maxBackups)
            && (p.hasAge ==> forall f <- plan.kept :: f.time >= p.cutoff)
            && (forall f, g :: f in plan.removed && g in plan.kept ==> f.time <= g.time)
            && (forall f :: f in plan.compress <==> p.compress && f in plan.kept && !EndsWith(f.name, GZ))
  {
    var k := PlanParts(files, p);
    PlanPartition(files, p);
    var plan := Make(files, p);
    UncompressedMembers(plan.kept);
    if p.maxBackups > 0 {
      if p.maxBackups < |files| {
        KeepCountWithin(files, p.maxBackups);
      } else {
        StemsAtMostFiles(files[..k]);
      }
      SubsetSize(plan.kept, files[..k]);
    }
    Ordered(files, k);
    hide AgeFilter, KeepCount, Uncompressed, NewestFirst, Stems;
  }

  lemma Ordered(files: seq<LogInfo>, k: nat)
    requires NewestFirst(files) && k <= |files|
    ensures forall f, g :: f in files[k..] && g in files[..k] ==> f.time <= g.time
  {
  }

  /** Times identify backups: two files have the same time exactly when they are the same backup. */
  ghost predicate TimesIdentify(files: seq<LogInfo>) {
    forall f, g :: f in files && g in files ==> (f.time == g.time <==> Stem(f.name) == Stem(g.name))
  }

  function Times(files: seq<LogInfo>): set<int> {
    set f | f in files :: f.time
  }

  /** How many different backups are newer. */
  function NewerBackups(files: seq<LogInfo>, t: int): nat {
    |set f | f in files && f.time > t :: f.time|
  }

  lemma {:induction false} AsManyTimes(files: seq<LogInfo>)
    requires TimesIdentify(files)
    ensures |Stems(files)| == |Times(files)|
  {
    if files == [] {
      assert Stems(files) == {} && Times(files) == {};
    } else {
      var n := |files| - 1;
      SplitLast(files);
      LastAdds(files[..n], files[n]);
      hide Stems, Times, TimesIdentify;
      AsManyTimes(files[..n]);
    }
  }

  lemma LastAdds(before: seq<LogInfo>, f: LogInfo)
    requires TimesIdentify(before + [f])
    ensures TimesIdentify(before)
    ensures Stems(before + [f]) == Stems(before) + {Stem(f.name)}
    ensures Times(before + [f]) == Times(before) + {f.time}
    ensures Stem(f.name) in Stems(before) <==> f.time in Times(before)
  {
    hide Stem;
    assert forall g :: g in before + [f] <==> g in before || g == f;
  }

  lemma PrefixTimes(files: seq<LogInfo>, i: nat)
    requires NewestFirst(files) && i < |files|
    ensures |Times(files[..i + 1])| == NewerBackups(files, files[i].time) + 1
  {
    hide NewestFirst;
    var t := files[i].time;
    var newer := set f | f in files && f.time > t :: f.time;
    NotOlderBefore(files, i);
    NewerBefore(files, i);
    assert files[..i + 1][i] == files[i];
    assert Times(files[..i + 1]) == newer + {t};
  }

  lemma NotOlderBefore(files: seq<LogInfo>, i: nat)
    requires NewestFirst(files) && i < |files|
    ensures forall f :: f in files[..i + 1] ==> f in files && f.time >= files[i].time
  {
  }

  lemma NewerBefore(files: seq<LogInfo>, i: nat)
    requires NewestFirst(files) && i < |files|
    ensures forall f :: f in files && f.time > files[i].time ==> f in files[..i + 1]
  {
    forall f | f in files && f.time > files[i].time ensures f in files[..i + 1] {
      var j :| 0 <= j < |files| && files[j] == f;
      assert files[..i + 1][j] == f;
    }
  }

  /** When times identify backups, the survivors are exactly the files of the newest `MaxBackups`
      backups that are within their age, plain and compressed form together. */
  lemma NewestSurvive(files: seq<LogInfo>, p: Policy, f: LogInfo)
    requires NewestFirst(files) && TimesIdentify(files)
    ensures f in Make(files, p).kept
       <==> f in files && (p.hasAge ==> f.time >= p.cutoff)
            && (p.maxBackups > 0 ==> NewerBackups(files, f.time) < p.maxBackups)
  {
    var k := PlanParts(files, p);
    if f in files {
      var i :| 0 <= i < |files| && files[i] == f;
      SurvivorIndex(files, p.maxBackups, i);
      SplitMembers(files, k);
      hide AgeFilter, KeepCount, Uncompressed, Make;
      if 0 < p.maxBackups < |files| && f in files[..k] {
        var j :| 0 <= j < k && files[j] == f;
        SurvivorIndex(files, p.maxBackups, j);
      }
      if i < k {
        assert files[..k][i] == f;
      }
    }
  }

  lemma SurvivorIndex(files: seq<LogInfo>, max: int, i: nat)
    requires NewestFirst(files) && TimesIdentify(files) && i < |files|
    ensures max > 0 ==> (i < KeepCount(files, max) <==> NewerBackups(files, files[i].time) < max)
    ensures NewerBackups(files, files[i].time) < |files|
  {
    var prefix := files[..i + 1];
    assert forall g <- prefix :: g in files;
    AsManyTimes(prefix);
    PrefixTimes(files, i);
    StemsAtMostFiles(prefix);
    if max > 0 {
      KeptPrefix(files, max, i + 1);
    }
  }
}
