/** The GitManager object: the cache of remote query results, the record of the last
    remote hash reported per working copy and branch, the change detector run once per
    poll cycle, and the wait between cycles.

    Processes are the `Exec` oracle, the config files a map from working-copy path to the
    lines of its `.git/config`, and GetProjectName a function from path to name. */
module Manager {
  import opened Base
  import opened StringExtensions
  import opened Process
  import opened Remotes
  import opened Commits
  import opened Config

  /** One wait tick, in milliseconds. */
  const TimeoutStep := 1000

  /** A new remote commit of a local branch, to be shown to the user. */
  datatype NotifyItem = NotifyItem(commit: Commit, branch: Branch, projectName: string)

  // ---------------------------------------------------------------------------
  // The remote query cache

  /** The cache key "<remote name>|<remote branch name>|<path>". */
  function CacheKey(rb: RemoteBranch, path: string): string {
    rb.remote.name + "|" + rb.name + "|" + path
  }

  /** GetMinimalRemoteItems: from the cache, or every `git ls-remote --heads` line that
      parses, cached even when there is none. */
  function MinimalRemoteItems(cache: map<string, seq<Commit>>, rb: RemoteBranch, path: string, exec: Exec)
    : (r: (Result<seq<Commit>>, map<string, seq<Commit>>))
  {
    var key := CacheKey(rb, path);
    if key in cache then (Ok(cache[key]), cache)
    else
      match exec(LsRemote(rb.remote.name, path))
      case Failed(m) => (Fail(m), cache)
      case Output(lines) =>
        var items := Collect(lines, ParseMinimalCommit);
        (Ok(items), cache[key := items])
  }

  /** GetRemoteItems: when the remote has an ssh query, from the cache or from the log
      lines the query prints, cached only when at least one parses; otherwise, or when
      none parses, GetMinimalRemoteItems. A failure keeps its message. */
  function RemoteItems(cache: map<string, seq<Commit>>, rb: RemoteBranch, path: string, exec: Exec)
    : (r: (Result<seq<Commit>>, map<string, seq<Commit>>))
  {
    var key := CacheKey(rb, path);
    if !HasLastCommitCommand(rb.remote) then MinimalRemoteItems(cache, rb, path, exec)
    else if key in cache then (Ok(cache[key]), cache)
    else
      match exec(SshQuery(rb.remote, rb.name))
      case Failed(m) => (Fail(m), cache)
      case Output(lines) =>
        var items := Collect(lines, ParseCommit);
        if items != [] then (Ok(items), cache[key := items])
        else MinimalRemoteItems(cache, rb, path, exec)
  }

  /** A cached entry is returned as it is, with no command run; otherwise at most the
      entry for this key is added, holding exactly what is returned. */
  lemma RemoteItemsCache(cache: map<string, seq<Commit>>, rb: RemoteBranch, path: string, exec: Exec, other: Exec)
    ensures var key := CacheKey(rb, path);
            key in cache ==> RemoteItems(cache, rb, path, exec) == (Ok(cache[key]), cache) == RemoteItems(cache, rb, path, other)
    ensures var (r, cache') := RemoteItems(cache, rb, path, exec);
            cache' == cache || (r.Ok? && cache' == cache[CacheKey(rb, path) := r.value])
  {
  }

  /** Asking twice gives the same answer and leaves the cache as the first call left it. */
  lemma RemoteItemsTwice(cache: map<string, seq<Commit>>, rb: RemoteBranch, path: string, exec: Exec)
    ensures var (r1, c1) := RemoteItems(cache, rb, path, exec);
            RemoteItems(c1, rb, path, exec) == (r1, c1)
  {
    var key := CacheKey(rb, path);
    var (r1, c1) := RemoteItems(cache, rb, path, exec);
    if key !in cache && HasLastCommitCommand(rb.remote) && exec(SshQuery(rb.remote, rb.name)).Output? {
      var items := Collect(exec(SshQuery(rb.remote, rb.name)).lines, ParseCommit);
      if items == [] {
        assert (r1, c1) == MinimalRemoteItems(cache, rb, path, exec);
      }
    }
  }

  /** Without a cached entry: an ssh query with at least one line that parses gives the
      parsed commits in order, and they are cached under the key. */
  lemma RemoteItemsSsh(cache: map<string, seq<Commit>>, rb: RemoteBranch, path: string, exec: Exec, lines: seq<string>)
    requires CacheKey(rb, path) !in cache && HasLastCommitCommand(rb.remote)
    requires exec(SshQuery(rb.remote, rb.name)) == Output(lines)
    requires exists line :: line in lines && ParseCommit(line).Some?
    ensures var items := Collect(lines, ParseCommit);
            items != [] && RemoteItems(cache, rb, path, exec) == (Ok(items), cache[CacheKey(rb, path) := items])
  {
    var line :| line in lines && ParseCommit(line).Some?;
    var i :| 0 <= i < |lines| && lines[i] == line;
  }

  /** Without a cached entry: an ssh query whose lines all fail to parse falls back to
      ls-remote, whose result is cached even when it is empty. */
  lemma RemoteItemsFallback(cache: map<string, seq<Commit>>, rb: RemoteBranch, path: string, exec: Exec)
    requires CacheKey(rb, path) !in cache && HasLastCommitCommand(rb.remote)
    requires exec(SshQuery(rb.remote, rb.name)).Output?
    requires forall line :: line in exec(SshQuery(rb.remote, rb.name)).lines ==> ParseCommit(line).None?
    requires exec(LsRemote(rb.remote.name, path)).Output?
    ensures var items := Collect(exec(LsRemote(rb.remote.name, path)).lines, ParseMinimalCommit);
            RemoteItems(cache, rb, path, exec) == (Ok(items), cache[CacheKey(rb, path) := items])
  {
    var lines := exec(SshQuery(rb.remote, rb.name)).lines;
    assert forall i :: 0 <= i < |lines| ==> ParseCommit(lines[i]).None? by {
      forall i | 0 <= i < |lines| ensures ParseCommit(lines[i]).None? {
        assert lines[i] in lines;
      }
    }
  }

  // ---------------------------------------------------------------------------
  // Change detection

  /** FirstOrDefault: the first remote item whose branch label is `wanted`. */
  function FirstWithLabel(items: seq<Commit>, wanted: string): (r: Option<Commit>)
    ensures r.Some? ==> r.value in items && r.value.branch == wanted
    ensures r.None? <==> forall c :: c in items ==> c.branch != wanted
    decreases |items|
  {
    if items == [] then None
    else if items[0].branch == wanted then Some(items[0])
    else FirstWithLabel(items[1..], wanted)
  }

  /** The hash recorded for a branch of a working copy, if any. */
  function Recorded(hashes: map<string, map<string, string>>, path: string, name: string): Option<string> {
    if path in hashes && name in hashes[path] then Some(hashes[path][name]) else None
  }

  /** Records a hash, creating the working copy's map when it has none. */
  function SetHash(hashes: map<string, map<string, string>>, path: string, name: string, hash: string)
    : (r: map<string, map<string, string>>)
    ensures forall p, n :: Recorded(r, p, n) == if p == path && n == name then Some(hash) else Recorded(hashes, p, n)
  {
    if path in hashes then hashes[path := hashes[path][name := hash]]
    else hashes[path := map[name := hash]]
  }

  /** The comparison for one branch that has a remote branch and a local last commit:
      the new record and the items to report. */
  function Detect(hashes: map<string, map<string, string>>, path: string, b: Branch, items: seq<Commit>, projectName: string)
    : (r: (map<string, map<string, string>>, seq<NotifyItem>))
    requires b.remote.Some? && b.lastCommit.Some?
  {
    var rem := FirstWithLabel(items, b.remote.value.name);
    if rem.Some? && rem.value.hash != b.lastCommit.value.hash && Recorded(hashes, path, b.name) != Some(rem.value.hash) then
      (SetHash(hashes, path, b.name, rem.value.hash), [NotifyItem(rem.value, b, projectName)])
    else (hashes, [])
  }

  /** An item is reported exactly when a remote item carries the remote branch's name,
      the first such differs from the local last commit, and it is not the hash already
      recorded; the record is then set to it and nothing else changes. */
  lemma DetectReports(hashes: map<string, map<string, string>>, path: string, b: Branch, items: seq<Commit>, projectName: string)
    requires b.remote.Some? && b.lastCommit.Some?
    ensures var (hashes', out) := Detect(hashes, path, b, items, projectName);
            var rem := FirstWithLabel(items, b.remote.value.name);
            && (out != [] <==> rem.Some? && rem.value.hash != b.lastCommit.value.hash && Recorded(hashes, path, b.name) != Some(rem.value.hash))
            && (out != [] ==> out == [NotifyItem(rem.value, b, projectName)] && rem.value in items &&
                               Recorded(hashes', path, b.name) == Some(rem.value.hash))
            && (out == [] ==> hashes' == hashes)
            && forall p, n :: (p, n) != (path, b.name) ==> Recorded(hashes', p, n) == Recorded(hashes, p, n)
  {
  }

  /** Running the comparison again on the same data reports nothing and changes nothing. */
  lemma DetectIdempotent(hashes: map<string, map<string, string>>, path: string, b: Branch, items: seq<Commit>, projectName: string)
    requires b.remote.Some? && b.lastCommit.Some?
    ensures var (hashes', _) := Detect(hashes, path, b, items, projectName);
            Detect(hashes', path, b, items, projectName) == (hashes', [])
  {
    var rem := FirstWithLabel(items, b.remote.value.name);
    var (hashes', out) := Detect(hashes, path, b, items, projectName);
    if out != [] {
      assert Recorded(hashes', path, b.name) == Some(rem.value.hash);
    }
  }

  // ---------------------------------------------------------------------------
  // One pass over the working copies

  /** The state GetNewItems works on: the recorded hashes, the cache, and the items and
      error messages collected so far. */
  datatype Poll = Poll(hashes: map<string, map<string, string>>, cache: map<string, seq<Commit>>,
                       items: seq<NotifyItem>, errors: seq<string>)

  /** The message of the error a failing working copy adds. */
  function ErrorFor(path: string, message: string): string {
    message + " for path '" + path + "'."
  }

  /** One branch of the loop: skipped unless it has a remote branch and a last commit;
      otherwise its remote items are fetched (a failure stops the working copy) and
      compared. */
  function BranchPass(s: Poll, b: Branch, path: string, projectName: string, exec: Exec): (r: (Poll, Option<string>))
  {
    if !(b.remote.Some? && b.lastCommit.Some?) then (s, None)
    else
      match RemoteItems(s.cache, b.remote.value, path, exec)
      case (Fail(m), cache) => (s.(cache := cache), Some(m))
      case (Ok(items), cache) =>
        var (hashes, out) := Detect(s.hashes, path, b, items, projectName);
        (s.(hashes := hashes, cache := cache, items := s.items + out), None)
  }

  /** The branch loop of one working copy, stopping at the first failure. */
  function ScanBranches(s: Poll, bs: seq<Branch>, path: string, projectName: string, exec: Exec): (r: (Poll, Option<string>))
    decreases |bs|
  {
    if bs == [] then (s, None)
    else
      var n := |bs| - 1;
      var (s', err) := ScanBranches(s, bs[..n], path, projectName, exec);
      if err.Some? then (s', err) else BranchPass(s', bs[n], path, projectName, exec)
  }

  /** One working copy: the cache is cleared, the branches loaded and compared; a failure
      anywhere adds one error naming the path, and what was recorded and reported before
      it is kept. */
  function CheckPath(s: Poll, path: string, configs: map<string, seq<string>>, exec: Exec, projectName: string -> string): Poll {
    var s1 := s.(cache := map[]);
    match LoadBranchesSpec(path, configs, exec)
    case Fail(m) => s1.(errors := s1.errors + [ErrorFor(path, m)])
    case Ok(bs) =>
      var (s2, err) := ScanBranches(s1, bs, path, projectName(path), exec);
      if err.Some? then s2.(errors := s2.errors + [ErrorFor(path, err.value)]) else s2
  }

  /** GetNewItems over the working copies, in order. */
  function NewItems(s: Poll, paths: seq<string>, configs: map<string, seq<string>>, exec: Exec, projectName: string -> string): Poll
    decreases |paths|
  {
    if paths == [] then s
    else
      var n := |paths| - 1;
      CheckPath(NewItems(s, paths[..n], configs, exec, projectName), paths[n], configs, exec, projectName)
  }

  /** Every error names a working copy, and there is at most one per working copy. */
  lemma {:induction false} NewItemsErrors(s: Poll, paths: seq<string>, configs: map<string, seq<string>>, exec: Exec, projectName: string -> string)
    ensures var r := NewItems(s, paths, configs, exec, projectName);
            && |s.errors| <= |r.errors| <= |s.errors| + |paths|
            && r.errors[..|s.errors|] == s.errors
            && forall k :: |s.errors| <= k < |r.errors| ==> exists p, m :: p in paths && r.errors[k] == ErrorFor(p, m)
    decreases |paths|
  {
    if paths != [] {
      var n := |paths| - 1;
      NewItemsErrors(s, paths[..n], configs, exec, projectName);
      var before := NewItems(s, paths[..n], configs, exec, projectName);
      var r := NewItems(s, paths, configs, exec, projectName);
      ScanKeepsErrors(before.(cache := map[]), paths[n], configs, exec, projectName);
      forall k | |s.errors| <= k < |r.errors|
        ensures exists p, m :: p in paths && r.errors[k] == ErrorFor(p, m)
      {
        if k < |before.errors| {
          var p, m :| p in paths[..n] && before.errors[k] == ErrorFor(p, m);
          assert p in paths;
        } else {
          assert paths[n] in paths;
        }
      }
    }
  }

  /** The branch loop adds no error of its own; CheckPath adds at most one. */
  lemma ScanKeepsErrors(s: Poll, path: string, configs: map<string, seq<string>>, exec: Exec, projectName: string -> string)
    ensures var r := CheckPath(s, path, configs, exec, projectName);
            r.errors == s.errors || exists m :: r.errors == s.errors + [ErrorFor(path, m)]
  {
    var s1 := s.(cache := map[]);
    var r := CheckPath(s, path, configs, exec, projectName);
    match LoadBranchesSpec(path, configs, exec)
    case Fail(m) =>
      assert r.errors == s.errors + [ErrorFor(path, m)];
    case Ok(bs) =>
      ScanBranchesFrame(s1, bs, path, projectName(path), exec);
      var (s2, err) := ScanBranches(s1, bs, path, projectName(path), exec);
      if err.Some? {
        assert r.errors == s.errors + [ErrorFor(path, err.value)];
      } else {
        assert r.errors == s.errors;
      }
  }

  /** The branch loop only adds items, never touches the errors, and never forgets a
      recorded hash. */
  lemma {:induction false} ScanBranchesFrame(s: Poll, bs: seq<Branch>, path: string, projectName: string, exec: Exec)
    ensures var (r, _) := ScanBranches(s, bs, path, projectName, exec);
            && r.errors == s.errors
            && (forall x :: x in s.items ==> x in r.items)
            && forall p, n :: Recorded(s.hashes, p, n).Some? ==> Recorded(r.hashes, p, n).Some?
    decreases |bs|
  {
    if bs != [] {
      var n := |bs| - 1;
      ScanBranchesFrame(s, bs[..n], path, projectName, exec);
      var (s', err) := ScanBranches(s, bs[..n], path, projectName, exec);
      if err.None? && bs[n].remote.Some? && bs[n].lastCommit.Some? {
        match RemoteItems(s'.cache, bs[n].remote.value, path, exec)
        case (Fail(_), _) =>
        case (Ok(items), _) => DetectReports(s'.hashes, path, bs[n], items, projectName);
      }
    }
  }

  /** Every change to the record is reported: when the hash recorded for a branch of a
      working copy differs after the pass, an item for a branch of that name carries the
      new hash. */
  lemma {:induction false} ScanBranchesReports(s: Poll, bs: seq<Branch>, path: string, projectName: string, exec: Exec)
    ensures var (r, _) := ScanBranches(s, bs, path, projectName, exec);
            forall p, n :: Recorded(r.hashes, p, n) != Recorded(s.hashes, p, n) ==>
              p == path && Recorded(r.hashes, p, n).Some? &&
              exists x :: x in r.items && x.branch.name == n && x.commit.hash == Recorded(r.hashes, p, n).value
    decreases |bs|
  {
    if bs != [] {
      var k := |bs| - 1;
      ScanBranchesReports(s, bs[..k], path, projectName, exec);
      var (s', err) := ScanBranches(s, bs[..k], path, projectName, exec);
      if err.None? && bs[k].remote.Some? && bs[k].lastCommit.Some? {
        match RemoteItems(s'.cache, bs[k].remote.value, path, exec)
        case (Fail(_), _) =>
        case (Ok(items), _) =>
          DetectReports(s'.hashes, path, bs[k], items, projectName);
          var (r, _) := ScanBranches(s, bs, path, projectName, exec);
          assert forall x :: x in s'.items ==> x in r.items;
      }
    }
  }

  /** The whole pass: every changed record is reported, and no record is forgotten. */
  lemma {:induction false} NewItemsReports(s: Poll, paths: seq<string>, configs: map<string, seq<string>>, exec: Exec, projectName: string -> string)
    ensures var r := NewItems(s, paths, configs, exec, projectName);
            && (forall x :: x in s.items ==> x in r.items)
            && (forall p, n :: Recorded(s.hashes, p, n).Some? ==> Recorded(r.hashes, p, n).Some?)
            && forall p, n :: Recorded(r.hashes, p, n) != Recorded(s.hashes, p, n) ==>
                 p in paths && Recorded(r.hashes, p, n).Some? &&
                 exists x :: x in r.items && x.branch.name == n && x.commit.hash == Recorded(r.hashes, p, n).value
    decreases |paths|
  {
    if paths != [] {
      var k := |paths| - 1;
      NewItemsReports(s, paths[..k], configs, exec, projectName);
      var before := NewItems(s, paths[..k], configs, exec, projectName);
      var s1 := before.(cache := map[]);
      match LoadBranchesSpec(paths[k], configs, exec)
      case Fail(_) =>
      case Ok(bs) =>
        ScanBranchesFrame(s1, bs, paths[k], projectName(paths[k]), exec);
        ScanBranchesReports(s1, bs, paths[k], projectName(paths[k]), exec);
      var r := NewItems(s, paths, configs, exec, projectName);
      assert forall p, n :: Recorded(r.hashes, p, n) != Recorded(s.hashes, p, n) ==>
               p in paths && Recorded(r.hashes, p, n).Some? &&
               exists x :: x in r.items && x.branch.name == n && x.commit.hash == Recorded(r.hashes, p, n).value by {
        forall p, n | Recorded(r.hashes, p, n) != Recorded(s.hashes, p, n)
          ensures p in paths && Recorded(r.hashes, p, n).Some? &&
                  exists x :: x in r.items && x.branch.name == n && x.commit.hash == Recorded(r.hashes, p, n).value
        {
          if Recorded(r.hashes, p, n) == Recorded(before.hashes, p, n) {
            var x :| x in before.items && x.branch.name == n && x.commit.hash == Recorded(before.hashes, p, n).value;
            assert x in r.items;
            assert p in paths[..k];
          } else {
            assert paths[k] in paths;
          }
        }
      }
    }
  }

  // ---------------------------------------------------------------------------
  // The poll period

  /** The wait after a cycle, in milliseconds: the period, clamped to at least one second. */
  function PeriodMs(periodInSeconds: int): (r: int)
    ensures r >= TimeoutStep && r % TimeoutStep == 0
    ensures periodInSeconds >= 1 ==> r == periodInSeconds * TimeoutStep
  {
    (if periodInSeconds > 1 then periodInSeconds else 1) * 1000
  }

  /** C#'s unchecked 32-bit arithmetic: the value modulo 2^32, read as signed. */
  function Wrap32(x: int): (r: int)
    ensures -0x8000_0000 <= r < 0x8000_0000
    ensures (x - r) % 0x1_0000_0000 == 0
  {
    (x + 0x8000_0000) % 0x1_0000_0000 - 0x8000_0000
  }

  /** The period as the constructor computes it: `Math.Max(periodInSeconds, 1) * 1000` on
      32-bit integers. */
  function PeriodAsWritten(periodInSeconds: int): int
    requires -0x8000_0000 <= periodInSeconds < 0x8000_0000
  {
    Wrap32((if periodInSeconds > 1 then periodInSeconds else 1) * 1000)
  }

  /** The number of 1000 ms ticks the wait loop counts down from `timeout`. */
  function Ticks(timeout: int): (r: nat)
    ensures timeout <= 0 ==> r == 0
    ensures timeout > 0 ==> (r - 1) * TimeoutStep < timeout <= r * TimeoutStep
  {
    if timeout <= 0 then 0 else (timeout + TimeoutStep - 1) / TimeoutStep
  }

  /** The two agree up to 2147483 seconds; from 2147484 seconds on the 32-bit product
      wraps to a negative period and the wait loop does not wait at all. */
  lemma PeriodOverflow()
    ensures PeriodAsWritten(2147483) == PeriodMs(2147483)
    ensures PeriodAsWritten(2147484) < 0 && Ticks(PeriodAsWritten(2147484)) == 0
    ensures Ticks(PeriodMs(2147484)) == 2147484
  {
    assert PeriodAsWritten(2147484) == 2147484000 - 0x1_0000_0000;
  }

  /** With the period computed on unbounded integers, a cycle that was no all-error
      cycle waits one tick per second of the clamped period. */
  lemma PeriodTicks(periodInSeconds: int)
    ensures Ticks(PeriodMs(periodInSeconds)) == (if periodInSeconds > 1 then periodInSeconds else 1)
  {
  }

  // ---------------------------------------------------------------------------
  // The object

  class GitManager {
    var projectPaths: seq<string>
    /** The poll period in milliseconds. */
    var period: int
    /** path -> local branch name -> last remote hash reported. */
    var lastHashes: map<string, map<string, string>>
    var doReload: bool
    var remoteItemsCache: map<string, seq<Commit>>

    constructor (projectPaths: seq<string>, periodInSeconds: int)
      ensures this.projectPaths == projectPaths && period == PeriodMs(periodInSeconds)
      ensures lastHashes == map[] && remoteItemsCache == map[] && !doReload
    {
      this.projectPaths := projectPaths;
      period := PeriodMs(periodInSeconds);
      lastHashes := map[];
      doReload := false;
      remoteItemsCache := map[];
    }

    /** Asks for the record to be forgotten at the start of the next cycle. */
    method Reload()
      modifies this`doReload
      ensures doReload
    {
      doReload := true;
    }

    method GetMinimalRemoteItems(rb: RemoteBranch, path: string, exec: Exec) returns (r: Result<seq<Commit>>)
      modifies this`remoteItemsCache
      ensures (r, remoteItemsCache) == MinimalRemoteItems(old(remoteItemsCache), rb, path, exec)
    {
      var key := CacheKey(rb, path);
      if key in remoteItemsCache {
        return Ok(remoteItemsCache[key]);
      }
      var output := exec(LsRemote(rb.remote.name, path));
      if output.Failed? {
        return Fail(output.message);
      }
      var result := CollectLines(output.lines, ParseMinimalCommit);
      remoteItemsCache := remoteItemsCache[key := result];
      r := Ok(result);
    }

    method GetRemoteItems(rb: RemoteBranch, path: string, exec: Exec) returns (r: Result<seq<Commit>>)
      modifies this`remoteItemsCache
      ensures (r, remoteItemsCache) == RemoteItems(old(remoteItemsCache), rb, path, exec)
    {
      if HasLastCommitCommand(rb.remote) {
        var key := CacheKey(rb, path);
        if key in remoteItemsCache {
          return Ok(remoteItemsCache[key]);
        }
        var output := exec(SshQuery(rb.remote, rb.name));
        if output.Failed? {
          return Fail(output.message);
        }
        var result := CollectLines(output.lines, ParseCommit);
        if result != [] {
          remoteItemsCache := remoteItemsCache[key := result];
          return Ok(result);
        }
      }
      r := GetMinimalRemoteItems(rb, path, exec);
    }

    /** The body of the branch loop of GetNewItems. */
    method CheckBranch(b: Branch, path: string, projectName: string, exec: Exec, items: seq<NotifyItem>, errors: seq<string>)
      returns (items': seq<NotifyItem>, err: Option<string>)
      modifies this`lastHashes, this`remoteItemsCache
      ensures (Poll(lastHashes, remoteItemsCache, items', errors), err) ==
              BranchPass(Poll(old(lastHashes), old(remoteItemsCache), items, errors), b, path, projectName, exec)
    {
      items', err := items, None;
      if b.remote.Some? && b.lastCommit.Some? {
        var remoteItems := GetRemoteItems(b.remote.value, path, exec);
        if remoteItems.Fail? {
          return items, Some(remoteItems.message);
        }
        var rem := FirstWithLabel(remoteItems.value, b.remote.value.name);
        if rem.Some? && rem.value.hash != b.lastCommit.value.hash && Recorded(lastHashes, path, b.name) != Some(rem.value.hash) {
          lastHashes := SetHash(lastHashes, path, b.name, rem.value.hash);
          items' := items + [NotifyItem(rem.value, b, projectName)];
        } else {
          assert items + [] == items;
        }
      }
    }

    /** The body of GetNewItems' loop for one working copy (the `try` block and its
        `catch`). */
    method ProcessPath(path: string, configs: map<string, seq<string>>, exec: Exec, projectName: string -> string,
                       items: seq<NotifyItem>, errors: seq<string>)
      returns (items': seq<NotifyItem>, errors': seq<string>)
      modifies this`lastHashes, this`remoteItemsCache
      ensures Poll(lastHashes, remoteItemsCache, items', errors') ==
              CheckPath(Poll(old(lastHashes), old(remoteItemsCache), items, errors), path, configs, exec, projectName)
    {
      ghost var s := Poll(lastHashes, remoteItemsCache, items, errors);
      remoteItemsCache := map[];
      var loaded := LoadBranches(path, configs, exec);
      if loaded.Fail? {
        CheckPathLoadFails(s, path, configs, exec, projectName);
        return items, errors + [ErrorFor(path, loaded.message)];
      }
      CheckPathScans(s, path, configs, exec, projectName);
      var err;
      items', err := ScanAll(loaded.value, path, projectName(path), exec, items, errors);
      errors' := if err.Some? then errors + [ErrorFor(path, err.value)] else errors;
    }

    /** GetNewItems' inner loop over the branches of one working copy, stopping at the
        first failure. */
    method ScanAll(branches: seq<Branch>, path: string, name: string, exec: Exec,
                   items: seq<NotifyItem>, errors: seq<string>)
      returns (items': seq<NotifyItem>, err: Option<string>)
      modifies this`lastHashes, this`remoteItemsCache
      ensures (Poll(lastHashes, remoteItemsCache, items', errors), err) ==
              ScanBranches(Poll(old(lastHashes), old(remoteItemsCache), items, errors), branches, path, name, exec)
    {
      ghost var s0 := Poll(lastHashes, remoteItemsCache, items, errors);
      items', err := items, None;
      var j := 0;
      while j < |branches|
        invariant 0 <= j <= |branches|
        invariant ScanBranches(s0, branches[..j], path, name, exec) == (Poll(lastHashes, remoteItemsCache, items', errors), err)
        invariant err == None
      {
        assert branches[..j + 1][..j] == branches[..j];
        items', err := CheckBranch(branches[j], path, name, exec, items', errors);
        if err.Some? {
          ScanStops(s0, branches, j + 1, path, name, exec);
          return;
        }
        j := j + 1;
      }
      assert branches[..j] == branches;
    }

    /** Collects the new items of every working copy; a failing working copy adds one
        error and the others go on. */
    method GetNewItems(configs: map<string, seq<string>>, exec: Exec, projectName: string -> string)
      returns (items: seq<NotifyItem>, errors: seq<string>)
      modifies this`lastHashes, this`remoteItemsCache
      ensures Poll(lastHashes, remoteItemsCache, items, errors) ==
              NewItems(Poll(old(lastHashes), old(remoteItemsCache), [], []), projectPaths, configs, exec, projectName)
    {
      ghost var s0 := Poll(lastHashes, remoteItemsCache, [], []);
      items, errors := [], [];
      var i := 0;
      while i < |projectPaths|
        invariant 0 <= i <= |projectPaths|
        invariant NewItems(s0, projectPaths[..i], configs, exec, projectName) == Poll(lastHashes, remoteItemsCache, items, errors)
      {
        assert projectPaths[..i + 1][..i] == projectPaths[..i];
        items, errors := ProcessPath(projectPaths[i], configs, exec, projectName, items, errors);
        i := i + 1;
      }
      assert projectPaths[..i] == projectPaths;
    }

    /** One pass of the worker loop: a pending reload clears the record and resets the
        flag, the cache is cleared, the working copies are checked, and the cycle is an
        all-error cycle when it has errors and no items. */
    method RunCycle(configs: map<string, seq<string>>, exec: Exec, projectName: string -> string)
      returns (items: seq<NotifyItem>, errors: seq<string>, lastWasError: bool)
      modifies this`lastHashes, this`remoteItemsCache, this`doReload
      ensures !doReload
      ensures Poll(lastHashes, remoteItemsCache, items, errors) ==
              NewItems(Poll(if old(doReload) then map[] else old(lastHashes), map[], [], []), projectPaths, configs, exec, projectName)
      ensures lastWasError <==> |errors| > 0 && |items| == 0
    {
      if doReload {
        doReload := false;
        lastHashes := map[];
      }
      remoteItemsCache := map[];
      items, errors := GetNewItems(configs, exec, projectName);
      lastWasError := |errors| > 0 && |items| == 0;
    }

    /** The wait after a cycle: one tick after an all-error cycle, the period otherwise,
        counted down in 1000 ms ticks; `interrupted(k)` says whether a cancel or a reload
        is pending when the loop checks before its k-th tick. Returns the ticks slept. */
    method Wait(lastWasError: bool, interrupted: nat -> bool) returns (ticks: nat)
      ensures ticks <= Ticks(if lastWasError then TimeoutStep else period)
      ensures forall k :: 0 <= k < ticks ==> !interrupted(k)
      ensures doReload ==> ticks == 0
      ensures ticks == Ticks(if lastWasError then TimeoutStep else period) || interrupted(ticks) || doReload
    {
      var timeout := if lastWasError then TimeoutStep else period;
      ghost var total := Ticks(timeout);
      ticks := 0;
      while timeout > 0 && !(interrupted(ticks) || doReload)
        invariant ticks <= total && timeout == (if lastWasError then TimeoutStep else period) - ticks * TimeoutStep
        invariant timeout > 0 <==> ticks < total
        invariant forall k :: 0 <= k < ticks ==> !interrupted(k)
        invariant doReload ==> ticks == 0
        decreases timeout
      {
        timeout := timeout - TimeoutStep;
        ticks := ticks + 1;
      }
    }
  }

  /** A working copy whose branches cannot be loaded adds one error and nothing else. */
  lemma CheckPathLoadFails(s: Poll, path: string, configs: map<string, seq<string>>, exec: Exec, projectName: string -> string)
    requires LoadBranchesSpec(path, configs, exec).Fail?
    ensures CheckPath(s, path, configs, exec, projectName) ==
            s.(cache := map[], errors := s.errors + [ErrorFor(path, LoadBranchesSpec(path, configs, exec).message)])
  {
  }

  /** A working copy whose branches load runs the branch loop on an empty cache. */
  lemma CheckPathScans(s: Poll, path: string, configs: map<string, seq<string>>, exec: Exec, projectName: string -> string)
    requires LoadBranchesSpec(path, configs, exec).Ok?
    ensures var (s2, err) := ScanBranches(s.(cache := map[]), LoadBranchesSpec(path, configs, exec).value, path, projectName(path), exec);
            CheckPath(s, path, configs, exec, projectName) ==
            if err.Some? then s2.(errors := s2.errors + [ErrorFor(path, err.value)]) else s2
  {
  }

  /** A failing branch ends the branch loop: nothing after it is looked at. */
  lemma {:induction false} ScanStops(s: Poll, bs: seq<Branch>, j: nat, path: string, projectName: string, exec: Exec)
    requires 0 < j <= |bs|
    requires ScanBranches(s, bs[..j], path, projectName, exec).1.Some?
    ensures ScanBranches(s, bs, path, projectName, exec) == ScanBranches(s, bs[..j], path, projectName, exec)
    decreases |bs| - j
  {
    if j < |bs| {
      assert bs[..j + 1][..j] == bs[..j];
      ScanStops(s, bs, j + 1, path, projectName, exec);
    } else {
      assert bs[..j] == bs;
    }
  }
}
