/** scripts/release-version-sources.ts: moving all four version sources together. */
module VersionWriter {
  import opened TomlLines
  import opened JsonVersion
  import opened VersionSources

  datatype Source = PackageJson | TauriConf | CargoToml | CargoLock

  const SOURCES: seq<Source> := [PackageJson, TauriConf, CargoToml, CargoLock]

  // ---------- the shape of a version

  predicate IsDigit(c: char) {
    '0' <= c <= '9'
  }

  predicate IsTailChar(c: char) {
    IsDigit(c) || 'A' <= c <= 'Z' || 'a' <= c <= 'z' || c == '.' || c == '-'
  }

  predicate AllTail(s: string) {
    s == "" || (IsTailChar(s[0]) && AllTail(s[1..]))
  }

  function DigitRun(s: string): (n: nat)
    ensures n <= |s| && AllTail(s[..n])
  {
    if s != "" && IsDigit(s[0]) then
      var n := DigitRun(s[1..]);
      assert s[..n + 1][1..] == s[1..][..n];
      n + 1
    else 0
  }

  /** `parts` numbers separated by dots, then nothing or a dash and a non-empty tail. */
  predicate NumbersThenTail(s: string, parts: nat)
    decreases parts
  {
    var n := DigitRun(s);
    if n == 0 || parts == 0 then false
    else if parts > 1 then n < |s| && s[n] == '.' && NumbersThenTail(s[n + 1..], parts - 1)
    else n == |s| || (s[n] == '-' && n + 1 < |s| && AllTail(s[n + 1..]))
  }

  predicate VersionShape(version: string) {
    NumbersThenTail(version, 3)
  }

  lemma {:induction false} AllTailAppend(s: string, t: string)
    requires AllTail(s) && AllTail(t)
    ensures AllTail(s + t)
  {
    if s == "" { assert s + t == t; } else {
      assert (s + t)[1..] == s[1..] + t;
      AllTailAppend(s[1..], t);
    }
  }

  lemma {:induction false} ShapeIsTail(s: string, parts: nat)
    requires NumbersThenTail(s, parts)
    ensures AllTail(s)
    decreases parts
  {
    var n := DigitRun(s);
    if n == |s| {
      assert s[..n] == s;
    } else {
      if parts > 1 { ShapeIsTail(s[n + 1..], parts - 1); }
      assert s[n..][1..] == s[n + 1..];
      AllTailAppend(s[..n], s[n..]);
      assert s == s[..n] + s[n..];
    }
  }

  lemma {:induction false} TailChars(s: string, c: char)
    requires AllTail(s) && c in s
    ensures IsTailChar(c)
  {
    if c != s[0] { TailChars(s[1..], c); }
  }

  /** No version that passes the shape test can break out of its quotes or its line. */
  lemma ShapeIsWellShaped(version: string)
    requires VersionShape(version)
    ensures WellShaped(version)
  {
    ShapeIsTail(version, 3);
    if '"' in version { TailChars(version, '"'); }
    if '\n' in version { TailChars(version, '\n'); }
  }

  // ---------- what a run should do

  /** How each source is rewritten to a version; nothing when its version cannot be located. */
  type Rules = (Source, string, string) -> Option<string>

  function RewriteSource(source: Source, text: string, version: string, parse: Parser): Option<string> {
    match source
    case CargoToml => RewriteRule(text, version, ManifestLine)
    case CargoLock => RewriteRule(text, version, LockLine)
    case _ => Rewrite(text, version, parse)
  }

  /** The rules in use, for any JSON parser. */
  function SourceRules(parse: Parser): Rules {
    (source, text, version) => RewriteSource(source, text, version, parse)
  }

  datatype Failure = Malformed | Missing(source: Source) | Unlocatable(source: Source) | DiskFailed

  datatype Outcome = Done(changed: seq<Source>) | Failed(failure: Failure)

  /** What stops this source from being planned. */
  function Obstacle(files: map<Source, string>, source: Source, version: string, rules: Rules): Option<Failure> {
    if source !in files then Some(Missing(source))
    else if rules(source, files[source], version).None? then Some(Unlocatable(source))
    else None
  }

  ghost predicate Ready(files: map<Source, string>, version: string, rules: Rules) {
    forall source: Source {:trigger Obstacle(files, source, version, rules)} ::
      Obstacle(files, source, version, rules) == None
  }

  function NewText(files: map<Source, string>, source: Source, version: string, rules: Rules): string
    requires Obstacle(files, source, version, rules) == None
  {
    rules(source, files[source], version).value
  }

  /** Every source carries its rewritten text, and no other file appeared. */
  ghost predicate Synced(before: map<Source, string>, after: map<Source, string>, version: string, rules: Rules) {
    && Ready(before, version, rules) && after.Keys == before.Keys
    && forall source: Source {:trigger after[source]} ::
      Obstacle(before, source, version, rules) == None && after[source] == NewText(before, source, version, rules)
  }

  /** The first source in order that cannot be planned, and why. */
  ghost predicate FirstObstacle(files: map<Source, string>, version: string, rules: Rules, failure: Failure) {
    exists source: Source {:trigger Obstacle(files, source, version, rules)} ::
      Obstacle(files, source, version, rules) == Some(failure) && ReadyUpTo(files, version, rules, RankOf(source))
  }

  /** The sources are looked at in this order: what is reported is the first that stands in the way. */
  lemma FirstObstacleIff(files: map<Source, string>, version: string, rules: Rules, failure: Failure)
    ensures FirstObstacle(files, version, rules, failure) <==>
      var package := Obstacle(files, PackageJson, version, rules);
      var tauri := Obstacle(files, TauriConf, version, rules);
      var manifest := Obstacle(files, CargoToml, version, rules);
      var lock := Obstacle(files, CargoLock, version, rules);
      Some(failure) == if package.Some? then package else if tauri.Some? then tauri
                       else if manifest.Some? then manifest else lock
  {
    if FirstObstacle(files, version, rules, failure) {
      var source: Source :|
        Obstacle(files, source, version, rules) == Some(failure) && ReadyUpTo(files, version, rules, RankOf(source));
      assert RankOf(PackageJson) < RankOf(TauriConf) < RankOf(CargoToml) < RankOf(CargoLock);
    } else {
      assert forall source: Source {:trigger Obstacle(files, source, version, rules)} ::
        Obstacle(files, source, version, rules) == Some(failure) ==>
          !ReadyUpTo(files, version, rules, RankOf(source));
    }
  }

  datatype Entry = Entry(source: Source, text: string)

  /** The files with the first `k` planned replacements made. */
  function Replaced(files: map<Source, string>, planned: seq<Entry>, k: nat): map<Source, string>
    requires k <= |planned|
  {
    if k == 0 then files else Replaced(files, planned, k - 1)[planned[k - 1].source := planned[k - 1].text]
  }

  /** The sources in their order. */
  function RankOf(source: Source): (r: nat)
    ensures r < |SOURCES| && SOURCES[r] == source
    ensures forall i :: 0 <= i < |SOURCES| && SOURCES[i] == source ==> i == r
  {
    match source
    case PackageJson => 0
    case TauriConf => 1
    case CargoToml => 2
    case CargoLock => 3
  }

  ghost predicate ReadyUpTo(files: map<Source, string>, version: string, rules: Rules, n: nat) {
    forall source: Source {:trigger Obstacle(files, source, version, rules)} ::
      RankOf(source) < n ==> Obstacle(files, source, version, rules) == None
  }

  /** The plan for the first `n` sources: those whose text would change, in order, with their new text. */
  function PlanFor(files: map<Source, string>, version: string, rules: Rules, n: nat): seq<Entry>
    requires n <= |SOURCES| && ReadyUpTo(files, version, rules, n)
  {
    if n == 0 then []
    else
      var source := SOURCES[n - 1];
      var text := NewText(files, source, version, rules);
      PlanFor(files, version, rules, n - 1) + (if text != files[source] then [Entry(source, text)] else [])
  }

  /** `e` is the replacement of one of the first `n` sources, and a real one. */
  ghost predicate Planned(files: map<Source, string>, version: string, rules: Rules, n: nat, e: Entry) {
    && RankOf(e.source) < n && Obstacle(files, e.source, version, rules) == None
    && e.text == NewText(files, e.source, version, rules) != files[e.source]
  }

  /** The plan holds just the real replacements. */
  lemma {:induction false} PlanMembers(files: map<Source, string>, version: string, rules: Rules, n: nat, e: Entry)
    requires n <= |SOURCES| && ReadyUpTo(files, version, rules, n)
    ensures e in PlanFor(files, version, rules, n) <==> Planned(files, version, rules, n, e)
  {
    if n > 0 {
      PlanMembers(files, version, rules, n - 1, e);
      assert RankOf(SOURCES[n - 1]) == n - 1;
    }
  }

  lemma {:induction false} ReplacedAppend(files: map<Source, string>, planned: seq<Entry>, more: seq<Entry>, k: nat)
    requires k <= |planned|
    ensures Replaced(files, planned + more, k) == Replaced(files, planned, k)
  {
    if k > 0 { ReplacedAppend(files, planned, more, k - 1); }
  }

  lemma ReplacedNext(files: map<Source, string>, planned: seq<Entry>, e: Entry)
    ensures Replaced(files, planned + [e], |planned + [e]|) == Replaced(files, planned, |planned|)[e.source := e.text]
    ensures planned + [] == planned
  {
    ReplacedAppend(files, planned, [e], |planned|);
  }

  /** The first `n` sources carry their rewritten text, the others their old one. */
  ghost predicate MovedUpTo(
    before: map<Source, string>, after: map<Source, string>, version: string, rules: Rules, n: nat) {
    && Ready(before, version, rules) && after.Keys == before.Keys
    && forall source: Source {:trigger after[source]} ::
      && Obstacle(before, source, version, rules) == None
      && after[source] == if RankOf(source) < n then NewText(before, source, version, rules) else before[source]
  }

  lemma MoveOneMore(before: map<Source, string>, after: map<Source, string>, version: string, rules: Rules, n: nat)
    requires n < |SOURCES| && MovedUpTo(before, after, version, rules, n) &&
      Obstacle(before, SOURCES[n], version, rules) == None
    ensures MovedUpTo(before, after[SOURCES[n] := NewText(before, SOURCES[n], version, rules)], version, rules, n + 1)
    ensures NewText(before, SOURCES[n], version, rules) == before[SOURCES[n]] ==>
      MovedUpTo(before, after, version, rules, n + 1)
  {
    assert RankOf(SOURCES[n]) == n;
    forall source: Source | RankOf(source) == n ensures source == SOURCES[n] {
      assert SOURCES[RankOf(source)] == source;
    }
  }

  lemma {:induction false} PlanReplaces(files: map<Source, string>, version: string, rules: Rules, n: nat)
    requires n <= |SOURCES| && Ready(files, version, rules)
    ensures var plan := PlanFor(files, version, rules, n);
      MovedUpTo(files, Replaced(files, plan, |plan|), version, rules, n)
  {
    if n > 0 {
      PlanReplaces(files, version, rules, n - 1);
      var plan := PlanFor(files, version, rules, n - 1);
      var last := SOURCES[n - 1];
      assert Obstacle(files, last, version, rules) == None;
      MoveOneMore(files, Replaced(files, plan, |plan|), version, rules, n - 1);
      ReplacedNext(files, plan, Entry(last, NewText(files, last, version, rules)));
    } else {
      forall source: Source ensures Obstacle(files, source, version, rules) == None {}
    }
  }

  /** Making every planned replacement moves every source. */
  lemma WholePlanSyncs(files: map<Source, string>, version: string, rules: Rules)
    requires Ready(files, version, rules)
    ensures var plan := PlanFor(files, version, rules, |SOURCES|);
      Synced(files, Replaced(files, plan, |plan|), version, rules)
  {
    PlanReplaces(files, version, rules, |SOURCES|);
  }

  /** Cargo.toml carries the version after a successful move. */
  lemma SyncedManifestCarries(before: map<Source, string>, after: map<Source, string>, version: string, parse: Parser)
    requires VersionShape(version) && Synced(before, after, version, SourceRules(parse))
    ensures CargoToml in after && ReadRule(after[CargoToml], ManifestLine) == Some(version)
  {
    ShapeIsWellShaped(version);
    CargoLocatorsFindVersions();
    assert Obstacle(before, CargoToml, version, SourceRules(parse)) == None;
    assert after[CargoToml] == NewText(before, CargoToml, version, SourceRules(parse));
    ReadAfterRewrite(before[CargoToml], version, ManifestLine);
  }

  /** And so does the crate's entry in Cargo.lock. */
  lemma SyncedLockCarries(before: map<Source, string>, after: map<Source, string>, version: string, parse: Parser)
    requires VersionShape(version) && Synced(before, after, version, SourceRules(parse))
    ensures CargoLock in after && ReadRule(after[CargoLock], LockLine) == Some(version)
  {
    ShapeIsWellShaped(version);
    CargoLocatorsFindVersions();
    assert Obstacle(before, CargoLock, version, SourceRules(parse)) == None;
    assert after[CargoLock] == NewText(before, CargoLock, version, SourceRules(parse));
    ReadAfterRewrite(before[CargoLock], version, LockLine);
  }

  /** And so do the two JSON files, in which nothing else changed. */
  lemma SyncedJsonCarries(before: map<Source, string>, after: map<Source, string>, version: string, parse: Parser,
                          source: Source)
    requires Synced(before, after, version, SourceRules(parse)) && (source == PackageJson || source == TauriConf)
    ensures source in before && source in after && Read(after[source], parse) == Some(version)
    ensures parse(before[source]).Some? && parse(after[source]).Some?
    ensures parse(after[source]).value.rest == parse(before[source]).value.rest
  {
    assert Obstacle(before, source, version, SourceRules(parse)) == None;
    assert after[source] == NewText(before, source, version, SourceRules(parse));
    ReadAfterJsonRewrite(before[source], version, parse);
  }

  lemma SourceSettles(source: Source, text: string, version: string, parse: Parser)
    requires VersionShape(version) && RewriteSource(source, text, version, parse).Some?
    ensures
      var after := RewriteSource(source, text, version, parse).value;
      RewriteSource(source, after, version, parse) == Some(after)
  {
    ShapeIsWellShaped(version);
    CargoLocatorsFindVersions();
    match source
    case CargoToml => LastRewriteWins(text, version, version, ManifestLine);
    case CargoLock => LastRewriteWins(text, version, version, LockLine);
    case _ => LastJsonRewriteWins(text, version, version, parse);
  }

  /** Moving again to the same version plans nothing. */
  lemma SyncAgainIsIdle(before: map<Source, string>, after: map<Source, string>, version: string, parse: Parser)
    requires VersionShape(version) && Synced(before, after, version, SourceRules(parse))
    ensures Ready(after, version, SourceRules(parse)) && PlanFor(after, version, SourceRules(parse), |SOURCES|) == []
  {
    var rules := SourceRules(parse);
    forall source: Source
      ensures Obstacle(after, source, version, rules) == None && NewText(after, source, version, rules) == after[source]
    {
      assert Obstacle(before, source, version, rules) == None;
      assert after[source] == NewText(before, source, version, rules);
      SourceSettles(source, before[source], version, parse);
    }
    var plan := PlanFor(after, version, rules, |SOURCES|);
    if plan != [] { PlanMembers(after, version, rules, |SOURCES|, plan[0]); }
  }

  // ---------- the files

  datatype Step = WriteTemp(source: Source) | Rename(source: Source) | Unlink(source: Source)

  /** Which file operations fail, and what a failed write leaves behind. */
  datatype Disk = Disk(fails: Step -> bool, partial: Source -> Option<string>)

  function SourcesOf(planned: seq<Entry>): (r: seq<Source>)
    ensures |r| == |planned| && forall i :: 0 <= i < |r| ==> r[i] == planned[i].source
  {
    seq(|planned|, i requires 0 <= i < |planned| => planned[i].source)
  }

  ghost predicate Writable(planned: seq<Entry>, disk: Disk) {
    forall i :: 0 <= i < |planned| ==> !disk.fails(WriteTemp(planned[i].source))
  }

  ghost predicate RenamableUpTo(planned: seq<Entry>, disk: Disk, k: nat) {
    forall i :: 0 <= i < k && i < |planned| ==> !disk.fails(Rename(planned[i].source))
  }

  /** What carrying out a plan does to the originals: all, nothing, or what came before the first failing rename. */
  ghost predicate Attempted(
    before: map<Source, string>, after: map<Source, string>, planned: seq<Entry>, disk: Disk, r: Outcome) {
    if !Writable(planned, disk) then r == Failed(DiskFailed) && after == before
    else if RenamableUpTo(planned, disk, |planned|)
    then r == Done(SourcesOf(planned)) && after == Replaced(before, planned, |planned|)
    else r == Failed(DiskFailed) && exists k: nat ::
      k < |planned| && RenamableUpTo(planned, disk, k) && disk.fails(Rename(planned[k].source)) &&
        after == Replaced(before, planned, k)
  }

  class Checkout {
    var files: map<Source, string>
    var temps: map<Source, string>  // the sibling temporary files

    constructor (files: map<Source, string>)
      ensures this.files == files && temps == map[]
    {
      this.files, temps := files, map[];
    }

    method PlanRewrites(version: string, rules: Rules) returns (failure: Option<Failure>, planned: seq<Entry>)
      ensures failure.None? ==> Ready(files, version, rules) && planned == PlanFor(files, version, rules, |SOURCES|)
      ensures failure.Some? ==> FirstObstacle(files, version, rules, failure.value)
    {
      planned := [];
      var i := 0;
      while i < |SOURCES|
        invariant 0 <= i <= |SOURCES| && ReadyUpTo(files, version, rules, i)
        invariant planned == PlanFor(files, version, rules, i)
      {
        var source := SOURCES[i];
        assert RankOf(source) == i;
        assert Obstacle(files, source, version, rules).Some? ==>
          FirstObstacle(files, version, rules, Obstacle(files, source, version, rules).value);
        if source !in files { return Some(Missing(source)), []; }
        var before := files[source];
        var after := rules(source, before, version);
        if after.None? { return Some(Unlocatable(source)), []; }
        forall s: Source | RankOf(s) == i ensures s == source { assert SOURCES[RankOf(s)] == s; }
        if after.value != before { planned := planned + [Entry(source, after.value)]; }
        i := i + 1;
      }
      failure := None;
    }

    method WriteTemps(planned: seq<Entry>, disk: Disk) returns (written: nat)
      modifies this`temps
      ensures written <= |planned|
      ensures forall i :: 0 <= i < written ==> !disk.fails(WriteTemp(planned[i].source))
      ensures written < |planned| ==> disk.fails(WriteTemp(planned[written].source))
      ensures forall s :: s in temps ==>
        s in old(temps) || disk.fails(WriteTemp(s)) || exists i :: 0 <= i < written && planned[i].source == s
    {
      written := 0;
      while written < |planned|
        invariant written <= |planned|
        invariant forall i :: 0 <= i < written ==> !disk.fails(WriteTemp(planned[i].source))
        invariant forall s :: s in temps ==> s in old(temps) || exists i :: 0 <= i < written && planned[i].source == s
      {
        var entry := planned[written];
        if disk.fails(WriteTemp(entry.source)) {
          var partial := disk.partial(entry.source);
          if partial.Some? { temps := temps[entry.source := partial.value]; }
          return;
        }
        temps := temps[entry.source := entry.text];
        written := written + 1;
      }
    }

    method RenameTemps(planned: seq<Entry>, disk: Disk) returns (renamed: nat)
      modifies this
      ensures renamed <= |planned|
      ensures forall i :: 0 <= i < renamed ==> !disk.fails(Rename(planned[i].source))
      ensures renamed < |planned| ==> disk.fails(Rename(planned[renamed].source))
      ensures files == Replaced(old(files), planned, renamed)
      ensures temps == old(temps) - set i | 0 <= i < renamed :: planned[i].source
    {
      renamed := 0;
      while renamed < |planned|
        invariant renamed <= |planned|
        invariant forall i :: 0 <= i < renamed ==> !disk.fails(Rename(planned[i].source))
        invariant files == Replaced(old(files), planned, renamed)
        invariant temps == old(temps) - set i | 0 <= i < renamed :: planned[i].source
      {
        var entry := planned[renamed];
        if disk.fails(Rename(entry.source)) { return; }
        files := files[entry.source := entry.text];
        temps := temps - {entry.source};
        renamed := renamed + 1;
      }
    }

    method RemoveTemps(entries: seq<Entry>, disk: Disk)
      modifies this`temps
      ensures temps.Keys == set s | s in old(temps) &&
        (disk.fails(Unlink(s)) || forall e :: e in entries ==> e.source != s)
    {
      var i := 0;
      while i < |entries|
        invariant 0 <= i <= |entries|
        invariant forall s :: s in temps <==>
          s in old(temps) && (disk.fails(Unlink(s)) || forall e :: e in entries[..i] ==> e.source != s)
      {
        var source := entries[i].source;
        assert entries[..i + 1] == entries[..i] + [entries[i]];
        if source in temps && !disk.fails(Unlink(source)) { temps := temps - {source}; }
        i := i + 1;
      }
      assert entries[..i] == entries;
    }

    /** Carry out a plan: every temporary file, then every rename; on a failure what is left of them is removed. */
    method CarryOut(planned: seq<Entry>, disk: Disk) returns (r: Outcome)
      modifies this
      ensures Attempted(old(files), files, planned, disk, r)
      ensures forall s :: s in temps && s !in old(temps) ==> disk.fails(WriteTemp(s)) || disk.fails(Unlink(s))
    {
      var written := WriteTemps(planned, disk);
      if written < |planned| {
        RemoveTemps(planned[..written], disk);
        return Failed(DiskFailed);
      }
      var renamed := RenameTemps(planned, disk);
      if renamed < |planned| {
        RemoveTemps(planned, disk);
        return Failed(DiskFailed);
      }
      r := Done(SourcesOf(planned));
    }

    /**
     * All four sources move together or, short of a failing rename, not at all: a refused version, a
     * missing or unlocatable source and a failed temporary write leave every original as it was.
     */
    method WriteVersionSources(version: string, rules: Rules, disk: Disk) returns (r: Outcome)
      modifies this
      ensures !VersionShape(version) ==> r == Failed(Malformed)
      ensures VersionShape(version) && !Ready(old(files), version, rules) ==>
        r.Failed? && FirstObstacle(old(files), version, rules, r.failure)
      ensures VersionShape(version) && Ready(old(files), version, rules) ==>
        Attempted(old(files), files, PlanFor(old(files), version, rules, |SOURCES|), disk, r)
      ensures r.Done? ==> Synced(old(files), files, version, rules)
      ensures r.Failed? && r.failure != DiskFailed ==> files == old(files) && temps == old(temps)
      ensures forall s :: s in temps && s !in old(temps) ==> disk.fails(WriteTemp(s)) || disk.fails(Unlink(s))
    {
      if !VersionShape(version) { return Failed(Malformed); }
      var failure, planned := PlanRewrites(version, rules);
      if failure.Some? { return Failed(failure.value); }
      r := CarryOut(planned, disk);
      WholePlanSyncs(old(files), version, rules);
    }
  }
}
