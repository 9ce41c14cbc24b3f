/** GitManager.LoadBranches, LoadRemote and LoadBranch: reading the local branches of a
    working copy, and the remotes they track, from its `.git/config`.

    The reader is a line-driven state machine with three states: scanning for a section
    header, reading the fields of a `[remote "..."]` section, and reading the fields of a
    `[branch "..."]` section. A section ends at the first empty line or line that is not
    a `key = value` line, and that line is examined again as a possible header.

    The specification is the function `Decls`, which turns the lines of the file into the
    sequence of declared sections; the methods are proved to compute it. */
module Config {
  import opened Base
  import opened StringExtensions
  import opened Patterns
  import opened Process
  import opened Remotes
  import opened Commits

  function InvalidGitDir(path: string): string {
    "Invalid git dir: " + path
  }

  const NoMatchingElement := "Sequence contains no matching element"
  const MoreThanOneMatchingElement := "Sequence contains more than one matching element"

  // ---------------------------------------------------------------------------
  // Section headers: `^\[remote \"([^"]+)\"\]$` and `^\[branch \"([^"]+)\"\]$`

  function HeaderLine(kind: string, name: string): string {
    "[" + kind + " \"" + name + "\"]"
  }

  function MatchHeader(line: string, kind: string): (r: Option<string>)
    ensures r.Some? ==> r.value != "" && '"' !in r.value && line == HeaderLine(kind, r.value)
  {
    var open := "[" + kind + " \"";
    if |line| >= |open| + 3 && line[..|open|] == open && line[|line| - 2..] == "\"]" then
      var name := line[|open|..|line| - 2];
      assert line == open + name + "\"]";
      if '"' !in name then Some(name) else None
    else None
  }

  lemma MatchHeaderOf(kind: string, name: string)
    requires name != "" && '"' !in name
    ensures MatchHeader(HeaderLine(kind, name), kind) == Some(name)
  {
    var open := "[" + kind + " \"";
    var line := HeaderLine(kind, name);
    assert line == open + name + "\"]";
    assert line[..|open|] == open && line[|line| - 2..] == "\"]";
    assert line[|open|..|line| - 2] == name;
  }

  lemma HeaderStartsWithBracket(kind: string, name: string)
    ensures HeaderLine(kind, name)[0] == '['
    ensures |kind| > 0 ==> HeaderLine(kind, name)[1] == kind[0]
  {
  }

  // ---------------------------------------------------------------------------
  // Field lines: `^\s+(\w+)\s+=\s+([^=\s]+)`

  predicate IsValueChar(c: char) {
    c != '=' && !IsWhiteSpace(c)
  }

  /** The parts of a field line: leading white space, key, white space, `=`, white space,
      value, and the unmatched rest of the line (the pattern is not anchored at the end). */
  datatype ValueLine = ValueLine(lead: string, key: string, gap1: string, gap2: string, value: string, tail: string)

  function RenderValueLine(v: ValueLine): string {
    v.lead + (v.key + (v.gap1 + ("=" + (v.gap2 + (v.value + v.tail)))))
  }

  predicate WellFormedValueLine(v: ValueLine) {
    && v.lead != "" && All(v.lead, IsWhiteSpace)
    && v.key != "" && All(v.key, IsWordChar)
    && v.gap1 != "" && All(v.gap1, IsWhiteSpace)
    && v.gap2 != "" && All(v.gap2, IsWhiteSpace)
    && v.value != "" && All(v.value, IsValueChar)
    && (v.tail == "" || !IsValueChar(v.tail[0]))
  }

  function MatchValueLine(line: string): (r: Option<ValueLine>)
    ensures r.Some? ==> WellFormedValueLine(r.value) && RenderValueLine(r.value) == line
  {
    var (lead, s1) := TakeWhile(line, IsWhiteSpace);
    var (key, s2) := TakeWhile(s1, IsWordChar);
    var (gap1, s3) := TakeWhile(s2, IsWhiteSpace);
    if lead == "" || key == "" || gap1 == "" || s3 == [] || s3[0] != '=' then None
    else
      var (gap2, s4) := TakeWhile(s3[1..], IsWhiteSpace);
      var (value, tail) := TakeWhile(s4, IsValueChar);
      if gap2 == "" || value == "" then None
      else
        assert s3 == "=" + s3[1..];
        Some(ValueLine(lead, key, gap1, gap2, value, tail))
  }

  lemma MatchValueLineOf(v: ValueLine)
    requires WellFormedValueLine(v)
    ensures MatchValueLine(RenderValueLine(v)) == Some(v)
  {
    TakeWhileOf(v.value, v.tail, IsValueChar);
    TakeWhileOf(v.gap2, v.value + v.tail, IsWhiteSpace);
    var s3 := "=" + (v.gap2 + (v.value + v.tail));
    assert s3[1..] == v.gap2 + (v.value + v.tail);
    TakeWhileOf(v.gap1, s3, IsWhiteSpace);
    TakeWhileOf(v.key, v.gap1 + s3, IsWordChar);
    TakeWhileOf(v.lead, v.key + (v.gap1 + s3), IsWhiteSpace);
  }

  /** A field line never looks like a header: it starts with white space. */
  lemma ValueLineIsNoHeader(v: ValueLine, kind: string)
    requires WellFormedValueLine(v)
    ensures MatchHeader(RenderValueLine(v), kind).None?
  {
    var line := RenderValueLine(v);
    assert line[0] == v.lead[0];
    if MatchHeader(line, kind).Some? {
      HeaderStartsWithBracket(kind, MatchHeader(line, kind).value);
    }
  }

  // ---------------------------------------------------------------------------
  // The specification: the sections the file declares

  /** A branch section: the branch name and the last `remote` and `merge` values. */
  datatype Section = Section(name: string, remote: Option<string>, merge: Option<string>)

  /** One section: a remote with its URL ("" when none), or a branch section. */
  datatype Decl = RemoteDecl(name: string, url: string) | BranchDecl(section: Section)

  /** StreamReader.ReadLine on the lines not yet read: the next line, or null at the end. */
  function Next(rest: seq<string>): (r: (Option<string>, seq<string>))
    ensures rest == [] ==> r == (None, [])
    ensures rest != [] ==> r == (Some(rest[0]), rest[1..])
  {
    if rest == [] then (None, []) else (Some(rest[0]), rest[1..])
  }

  /** Does this line end a section? (`IsNotNullOrEmpty` fails, or it is no field line.) */
  predicate EndsSection(line: Option<string>) {
    !IsNotNullOrEmpty(line) || MatchValueLine(line.value).None?
  }

  /** Fields of a remote section from the current line on: the first `url` value, the
      line the section stopped at, and the lines after it. Stopping at `url` leaves that
      line as the current one. */
  function RemoteFrom(line: Option<string>, rest: seq<string>): (r: (string, Option<string>, seq<string>))
    ensures |r.2| <= |rest|
    ensures line.None? ==> r.1.None?
    decreases |rest|, if line.Some? then 1 else 0
  {
    if EndsSection(line) then ("", line, rest)
    else
      var v := MatchValueLine(line.value).value;
      if v.key == "url" then (v.value, line, rest)
      else RemoteFrom(Next(rest).0, Next(rest).1)
  }

  /** Fields of a branch section from the current line on: the last `remote` and `merge`
      values (starting from `remote` and `merge`), the line the section stopped at, and
      the lines after it. */
  function BranchFrom(line: Option<string>, rest: seq<string>, remote: Option<string>, merge: Option<string>)
    : (r: (Option<string>, Option<string>, Option<string>, seq<string>))
    ensures |r.3| <= |rest|
    ensures line.None? ==> r.2.None?
    decreases |rest|, if line.Some? then 1 else 0
  {
    if EndsSection(line) then (remote, merge, line, rest)
    else
      var v := MatchValueLine(line.value).value;
      var remote' := if v.key == "remote" then Some(v.value) else remote;
      var merge' := if v.key == "merge" then Some(v.value) else merge;
      BranchFrom(Next(rest).0, Next(rest).1, remote', merge')
  }

  /** The top-level scan from the current line on. */
  function ScanTop(line: Option<string>, rest: seq<string>): seq<Decl>
    decreases |rest|, if line.Some? then 1 else 0
  {
    if line.None? then []
    else
      match MatchHeader(line.value, "remote")
      case Some(name) =>
        var (url, line', rest') := RemoteFrom(Next(rest).0, Next(rest).1);
        [RemoteDecl(name, url)] + ScanTop(line', rest')
      case None =>
        match MatchHeader(line.value, "branch")
        case Some(name) =>
          var (remote, merge, line', rest') := BranchFrom(Next(rest).0, Next(rest).1, None, None);
          [BranchDecl(Section(name, remote, merge))] + ScanTop(line', rest')
        case None => ScanTop(Next(rest).0, Next(rest).1)
  }

  /** The sections of a config file, in file order. */
  function Decls(lines: seq<string>): seq<Decl> {
    ScanTop(Next(lines).0, Next(lines).1)
  }

  // ---------------------------------------------------------------------------
  // Properties of the scan

  function RenderAll(vs: seq<ValueLine>): (r: seq<string>)
    ensures |r| == |vs|
  {
    if vs == [] then [] else [RenderValueLine(vs[0])] + RenderAll(vs[1..])
  }

  predicate AllWellFormed(vs: seq<ValueLine>) {
    forall i :: 0 <= i < |vs| ==> WellFormedValueLine(vs[i])
  }

  predicate NoKey(vs: seq<ValueLine>, key: string) {
    forall i :: 0 <= i < |vs| ==> vs[i].key != key
  }

  /** The value of the last field with this key. */
  function LastValue(vs: seq<ValueLine>, key: string): (r: Option<string>)
    ensures r.Some? ==> exists i :: 0 <= i < |vs| && vs[i].key == key && vs[i].value == r.value &&
                                    forall j :: i < j < |vs| ==> vs[j].key != key
    ensures r.None? <==> NoKey(vs, key)
    decreases |vs|
  {
    if vs == [] then None
    else
      var later := LastValue(vs[1..], key);
      assert forall j :: 1 <= j < |vs| ==> vs[j] == vs[1..][j - 1];
      if later.Some? then
        assert exists i :: 0 <= i < |vs| && vs[i].key == key && vs[i].value == later.value &&
                           forall j :: i < j < |vs| ==> vs[j].key != key by {
          var k :| 0 <= k < |vs[1..]| && vs[1..][k].key == key && vs[1..][k].value == later.value &&
                   forall j :: k < j < |vs[1..]| ==> vs[1..][j].key != key;
          assert vs[k + 1] == vs[1..][k];
        }
        later
      else if vs[0].key == key then Some(vs[0].value)
      else None
  }

  function Or(a: Option<string>, b: Option<string>): Option<string> {
    if a.Some? then a else b
  }

  /** The last value with a key, or the value held before: a later field overrides. */
  lemma LastValueStep(vs: seq<ValueLine>, key: string, prior: Option<string>)
    requires vs != []
    ensures Or(LastValue(vs, key), prior) ==
            Or(LastValue(vs[1..], key), if vs[0].key == key then Some(vs[0].value) else prior)
  {
  }

  /** Reading the next line of a run of field lines followed by one more line and the
      rest. */
  lemma NextOfRun(vs: seq<ValueLine>, x: string, rest: seq<string>)
    ensures vs == [] ==> Next(RenderAll(vs) + [x] + rest) == (Some(x), rest)
    ensures vs != [] ==> Next(RenderAll(vs) + [x] + rest) == (Some(RenderValueLine(vs[0])), RenderAll(vs[1..]) + [x] + rest)
  {
    if vs == [] {
      assert RenderAll(vs) + [x] + rest == [x] + rest;
      NextCons(x, rest);
    } else {
      var h, t := RenderValueLine(vs[0]), RenderAll(vs[1..]);
      assert RenderAll(vs) == [h] + t;
      AppendAssoc([h] + t, [x], rest);
      AppendAssoc([h], t, [x] + rest);
      AppendAssoc(t, [x], rest);
      NextCons(h, t + ([x] + rest));
    }
  }

  lemma AppendAssoc(a: seq<string>, b: seq<string>, c: seq<string>)
    ensures a + b + c == a + (b + c)
  {
  }

  /** The first of a run of well-formed field lines without a key, and the run after it. */
  lemma RunTail(vs: seq<ValueLine>, key: string)
    requires vs != [] && AllWellFormed(vs)
    ensures WellFormedValueLine(vs[0]) && AllWellFormed(vs[1..])
    ensures NoKey(vs, key) ==> vs[0].key != key && NoKey(vs[1..], key)
  {
    assert forall i :: 0 <= i < |vs| - 1 ==> vs[1..][i] == vs[i + 1];
  }

  /** The line after a given first line is the rest. */
  lemma NextCons(h: string, rest: seq<string>)
    ensures Next([h] + rest) == (Some(h), rest)
  {
    assert ([h] + rest)[1..] == rest;
  }

  /** A field line other than `url` inside a remote section: the scan goes on with the
      next line. */
  lemma RemoteFromFieldLine(v: ValueLine, rest: seq<string>)
    requires WellFormedValueLine(v) && v.key != "url"
    ensures RemoteFrom(Some(RenderValueLine(v)), rest) == RemoteFrom(Next(rest).0, Next(rest).1)
  {
    MatchValueLineOf(v);
  }

  /** A field line inside a branch section: a `remote` or `merge` key replaces the value
      held, and the scan goes on with the next line. */
  lemma BranchFromFieldLine(v: ValueLine, rest: seq<string>, remote: Option<string>, merge: Option<string>)
    requires WellFormedValueLine(v)
    ensures BranchFrom(Some(RenderValueLine(v)), rest, remote, merge) ==
            BranchFrom(Next(rest).0, Next(rest).1, if v.key == "remote" then Some(v.value) else remote,
                       if v.key == "merge" then Some(v.value) else merge)
  {
    MatchValueLineOf(v);
  }

  /** A run of field lines with no `url` key, then a line that ends the section: the
      remote has no URL and the ending line is the current one again. */
  lemma {:induction false} RemoteFromNoUrl(vs: seq<ValueLine>, e: string, rest: seq<string>)
    requires AllWellFormed(vs) && NoKey(vs, "url") && EndsSection(Some(e))
    ensures RemoteFrom(Next(RenderAll(vs) + [e] + rest).0, Next(RenderAll(vs) + [e] + rest).1) == ("", Some(e), rest)
    decreases |vs|
  {
    NextOfRun(vs, e, rest);
    if vs != [] {
      RunTail(vs, "url");
      RemoteFromFieldLine(vs[0], RenderAll(vs[1..]) + [e] + rest);
      RemoteFromNoUrl(vs[1..], e, rest);
    }
  }

  /** A run of field lines with no `url` key, then a `url` line: that value is the URL and
      the `url` line is the current one. */
  lemma {:induction false} RemoteFromUrl(vs: seq<ValueLine>, u: ValueLine, rest: seq<string>)
    requires AllWellFormed(vs) && NoKey(vs, "url") && WellFormedValueLine(u) && u.key == "url"
    ensures var ls := RenderAll(vs) + [RenderValueLine(u)] + rest;
            RemoteFrom(Next(ls).0, Next(ls).1) == (u.value, Some(RenderValueLine(u)), rest)
    decreases |vs|
  {
    NextOfRun(vs, RenderValueLine(u), rest);
    if vs == [] {
      MatchValueLineOf(u);
    } else {
      RunTail(vs, "url");
      RemoteFromFieldLine(vs[0], RenderAll(vs[1..]) + [RenderValueLine(u)] + rest);
      RemoteFromUrl(vs[1..], u, rest);
    }
  }

  /** A run of field lines, then a line that ends the section: each key's last value
      wins over the values held before. */
  lemma {:induction false} BranchFromFields(vs: seq<ValueLine>, e: string, rest: seq<string>,
                                            remote: Option<string>, merge: Option<string>)
    requires AllWellFormed(vs) && EndsSection(Some(e))
    ensures var ls := RenderAll(vs) + [e] + rest;
            BranchFrom(Next(ls).0, Next(ls).1, remote, merge) ==
            (Or(LastValue(vs, "remote"), remote), Or(LastValue(vs, "merge"), merge), Some(e), rest)
    decreases |vs|
  {
    NextOfRun(vs, e, rest);
    if vs != [] {
      var v := vs[0];
      RunTail(vs, "url");
      BranchFromFieldLine(v, RenderAll(vs[1..]) + [e] + rest, remote, merge);
      var remote' := if v.key == "remote" then Some(v.value) else remote;
      var merge' := if v.key == "merge" then Some(v.value) else merge;
      BranchFromFields(vs[1..], e, rest, remote', merge');
      LastValueStep(vs, "remote", remote);
      LastValueStep(vs, "merge", merge);
    }
  }

  /** Only a line that is exactly `[remote "<name>"]` opens a remote section; a section
      without a `url` field gives an empty URL, and the line that ends it is examined
      again as a possible header. */
  lemma RemoteSectionWithoutUrl(name: string, vs: seq<ValueLine>, e: string, rest: seq<string>)
    requires name != "" && '"' !in name
    requires AllWellFormed(vs) && NoKey(vs, "url") && EndsSection(Some(e))
    ensures ScanTop(Some(HeaderLine("remote", name)), RenderAll(vs) + [e] + rest) ==
            [RemoteDecl(name, "")] + ScanTop(Some(e), rest)
  {
    MatchHeaderOf("remote", name);
    RemoteFromNoUrl(vs, e, rest);
  }

  /** A remote's URL is the value of the first `url` field of its section; the rest of
      the section is scanned as top-level lines, none of which is a header. */
  lemma RemoteSectionUrl(name: string, vs: seq<ValueLine>, u: ValueLine, rest: seq<string>)
    requires name != "" && '"' !in name
    requires AllWellFormed(vs) && NoKey(vs, "url") && WellFormedValueLine(u) && u.key == "url"
    ensures ScanTop(Some(HeaderLine("remote", name)), RenderAll(vs) + [RenderValueLine(u)] + rest) ==
            [RemoteDecl(name, u.value)] + ScanTop(Next(rest).0, Next(rest).1)
  {
    MatchHeaderOf("remote", name);
    RemoteFromUrl(vs, u, rest);
    ValueLineIsNoHeader(u, "remote");
    ValueLineIsNoHeader(u, "branch");
  }

  /** A branch section records the last `remote` and the last `merge` value, and the
      line that ends it is examined again as a possible header. */
  lemma BranchSection(name: string, vs: seq<ValueLine>, e: string, rest: seq<string>)
    requires name != "" && '"' !in name
    requires AllWellFormed(vs) && EndsSection(Some(e))
    ensures ScanTop(Some(HeaderLine("branch", name)), RenderAll(vs) + [e] + rest) ==
            [BranchDecl(Section(name, LastValue(vs, "remote"), LastValue(vs, "merge")))] + ScanTop(Some(e), rest)
  {
    MatchHeaderOf("branch", name);
    var line := HeaderLine("branch", name);
    assert MatchHeader(line, "remote").None? by {
      if MatchHeader(line, "remote").Some? {
        HeaderStartsWithBracket("branch", name);
        HeaderStartsWithBracket("remote", MatchHeader(line, "remote").value);
      }
    }
    BranchFromFields(vs, e, rest, None, None);
  }

  /** Any line that is no header is skipped at the top level. */
  lemma NonHeaderSkipped(line: string, rest: seq<string>)
    requires MatchHeader(line, "remote").None? && MatchHeader(line, "branch").None?
    ensures ScanTop(Some(line), rest) == ScanTop(Next(rest).0, Next(rest).1)
  {
  }

  // ---------------------------------------------------------------------------
  // From sections to branches

  /** `git log -1 <branch> --pretty=...`, run in the working copy. */
  function LocalLog(path: string, name: string): Command {
    Command("git", ReplaceAll(GitLogFormat, BranchNamePlaceholder, name), Some(path))
  }

  function LastCommitOf(path: string, name: string, exec: Exec): (r: Result<Option<Commit>>)
    ensures r.Fail? <==> exec(LocalLog(path, name)).Failed?
  {
    match exec(LocalLog(path, name))
    case Failed(m) => Fail(m)
    case Output(lines) => Ok(FirstSome(lines, ParseCommit))
  }

  /** A branch before its remote is looked up: linked (a remote name, a merge path and
      the local last commit) or not. */
  datatype PendingBranch = Unlinked(name: string) | Linked(name: string, remoteName: string, merge: string, lastCommit: Option<Commit>)

  /** The end of LoadBranch: only with both `remote` and `merge` present is the branch
      linked, and only then is git asked for its last commit. */
  function BuildBranch(name: string, remote: Option<string>, merge: Option<string>, path: string, exec: Exec)
    : (r: Result<PendingBranch>)
    ensures r.Ok? ==> r.value.name == name
    ensures r.Ok? ==> (r.value.Linked? <==> IsNotNullOrEmpty(remote) && IsNotNullOrEmpty(merge))
    ensures r.Fail? ==> IsNotNullOrEmpty(remote) && IsNotNullOrEmpty(merge) && exec(LocalLog(path, name)).Failed?
    ensures r.Ok? && r.value.Linked? ==>
      r.value.remoteName == remote.value && r.value.merge == merge.value && Ok(r.value.lastCommit) == LastCommitOf(path, name, exec)
  {
    if IsNotNullOrEmpty(remote) && IsNotNullOrEmpty(merge) then
      match LastCommitOf(path, name, exec)
      case Fail(m) => Fail(m)
      case Ok(c) => Ok(Linked(name, remote.value, merge.value, c))
    else Ok(Unlinked(name))
  }

  /** The remotes declared in the file, in order. */
  function RemotesOf(ds: seq<Decl>): (r: seq<Remote>)
    decreases |ds|
  {
    if ds == [] then []
    else
      var n := |ds| - 1;
      RemotesOf(ds[..n]) + (if ds[n].RemoteDecl? then [NewRemote(ds[n].name, ds[n].url)] else [])
  }

  /** The branch sections of the file, in order. */
  function SectionsOf(ds: seq<Decl>): seq<Section>
    decreases |ds|
  {
    if ds == [] then []
    else
      var n := |ds| - 1;
      SectionsOf(ds[..n]) + (if ds[n].BranchDecl? then [ds[n].section] else [])
  }

  /** LoadBranch's result for a branch section. */
  function BuildWith(path: string, exec: Exec): Section -> Result<PendingBranch> {
    (s: Section) => BuildBranch(s.name, s.remote, s.merge, path, exec)
  }

  /** The branches read, in file order; the first git call that fails stops the reading. */
  function PendingOf(ds: seq<Decl>, path: string, exec: Exec): Result<seq<PendingBranch>> {
    MapResult(SectionsOf(ds), BuildWith(path, exec))
  }

  /** The remotes with this name. */
  function Named(remotes: seq<Remote>, name: string): (r: seq<Remote>)
    ensures forall x :: x in r <==> x in remotes && x.name == name
    decreases |remotes|
  {
    if remotes == [] then []
    else (if remotes[0].name == name then [remotes[0]] else []) + Named(remotes[1..], name)
  }

  /** `remotes.Single(p => p.Name == name)`. */
  function Single(remotes: seq<Remote>, name: string): (r: Result<Remote>)
    ensures r.Ok? <==> |Named(remotes, name)| == 1
    ensures r.Ok? ==> r.value in remotes && r.value.name == name
    ensures r.Fail? ==> r.message == (if Named(remotes, name) == [] then NoMatchingElement else MoreThanOneMatchingElement)
  {
    var named := Named(remotes, name);
    if |named| == 0 then Fail(NoMatchingElement)
    else if |named| > 1 then Fail(MoreThanOneMatchingElement)
    else
      assert named[0] in named;
      Ok(named[0])
  }

  /** The remote of a linked branch, looked up by name among all remotes of the file
      (Branch.ToString, called for every branch once the file is read). */
  function Resolve(p: PendingBranch, remotes: seq<Remote>): (r: Result<Branch>)
    ensures r.Ok? ==> r.value.name == p.name
    ensures r.Ok? ==> (r.value.remote.Some? <==> p.Linked?)
    ensures p.Linked? ==> (r.Ok? <==> |Named(remotes, p.remoteName)| == 1)
    ensures r.Ok? && p.Linked? ==>
      r.value.lastCommit == p.lastCommit &&
      r.value.remote.value.remote in remotes && r.value.remote.value.remote.name == p.remoteName &&
      r.value.remote.value.branchPath == p.merge && r.value.remote.value.name == LastSegment(p.merge, '/')
  {
    match p
    case Unlinked(name) => Ok(Branch(name, None, None))
    case Linked(name, remoteName, merge, lastCommit) =>
      match Single(remotes, remoteName)
      case Fail(m) => Fail(m)
      case Ok(remote) => Ok(Branch(name, Some(NewRemoteBranch(merge, remote)), lastCommit))
  }

  function ResolveWith(remotes: seq<Remote>): PendingBranch -> Result<Branch> {
    (p: PendingBranch) => Resolve(p, remotes)
  }

  /** Every branch resolved in order; the first failing lookup stops with its failure. */
  function ResolveAll(ps: seq<PendingBranch>, remotes: seq<Remote>): Result<seq<Branch>> {
    MapResult(ps, ResolveWith(remotes))
  }

  /** What LoadBranches returns for a working copy, given the config files that exist
      (path to lines of `<path>/.git/config`). */
  function LoadBranchesSpec(path: string, configs: map<string, seq<string>>, exec: Exec): (r: Result<seq<Branch>>)
    ensures path !in configs ==> r == Fail(InvalidGitDir(path))
  {
    if path !in configs then Fail(InvalidGitDir(path))
    else
      var ds := Decls(configs[path]);
      match PendingOf(ds, path, exec)
      case Fail(m) => Fail(m)
      case Ok(ps) => ResolveAll(ps, RemotesOf(ds))
  }

  /** On success there is one branch per branch section, in file order, with the
      section's name; a branch has a remote branch exactly when its section has both a
      non-empty `remote` and a non-empty `merge`, and then that remote is the one remote
      of the file with that name. */
  lemma LoadBranchesShape(path: string, configs: map<string, seq<string>>, exec: Exec)
    requires path in configs && LoadBranchesSpec(path, configs, exec).Ok?
    ensures var ds := Decls(configs[path]);
            var bs := LoadBranchesSpec(path, configs, exec).value;
            var ss := SectionsOf(ds);
            |bs| == |ss| &&
            forall i :: 0 <= i < |bs| ==>
              && bs[i].name == ss[i].name
              && (bs[i].remote.Some? <==> IsNotNullOrEmpty(ss[i].remote) && IsNotNullOrEmpty(ss[i].merge))
              && (bs[i].remote.Some? ==>
                    bs[i].remote.value.remote.name == ss[i].remote.value &&
                    bs[i].remote.value.branchPath == ss[i].merge.value &&
                    Named(RemotesOf(ds), ss[i].remote.value) == [bs[i].remote.value.remote])
  {
    var ds := Decls(configs[path]);
    var ss := SectionsOf(ds);
    var ps := PendingOf(ds, path, exec).value;
    var bs := LoadBranchesSpec(path, configs, exec).value;
    assert bs == ResolveAll(ps, RemotesOf(ds)).value;
    forall i | 0 <= i < |bs|
      ensures bs[i].name == ss[i].name
      ensures bs[i].remote.Some? <==> IsNotNullOrEmpty(ss[i].remote) && IsNotNullOrEmpty(ss[i].merge)
      ensures bs[i].remote.Some? ==>
                bs[i].remote.value.remote.name == ss[i].remote.value &&
                bs[i].remote.value.branchPath == ss[i].merge.value &&
                Named(RemotesOf(ds), ss[i].remote.value) == [bs[i].remote.value.remote]
    {
      assert BuildWith(path, exec)(ss[i]) == Ok(ps[i]);
      assert ResolveWith(RemotesOf(ds))(ps[i]) == Ok(bs[i]);
      if bs[i].remote.Some? {
        NamedSingleton(RemotesOf(ds), ss[i].remote.value, bs[i].remote.value.remote);
      }
    }
  }

  /** The only remote with a name, once it is known to be one of them. */
  lemma NamedSingleton(remotes: seq<Remote>, name: string, x: Remote)
    requires |Named(remotes, name)| == 1 && x in remotes && x.name == name
    ensures Named(remotes, name) == [x]
  {
    assert x in Named(remotes, name);
  }

  // ---------------------------------------------------------------------------
  // The imperative reader

  /** A StreamReader over the lines of a file; `rest` holds the lines not yet read. */
  class LineReader {
    var rest: seq<string>

    constructor (lines: seq<string>)
      ensures rest == lines
    {
      rest := lines;
    }

    method ReadLine() returns (line: Option<string>)
      modifies this
      ensures (line, rest) == Next(old(rest))
    {
      if rest == [] {
        line := None;
      } else {
        line := Some(rest[0]);
        rest := rest[1..];
      }
    }
  }

  /** GetBranchLastCommit: the first parseable line of `git log -1 <branch>`, or null. */
  method GetBranchLastCommit(path: string, name: string, exec: Exec) returns (r: Result<Option<Commit>>)
    ensures r == LastCommitOf(path, name, exec)
  {
    var output := exec(LocalLog(path, name));
    if output.Failed? {
      return Fail(output.message);
    }
    var lines := output.lines;
    var i := 0;
    while i < |lines|
      invariant 0 <= i <= |lines|
      invariant FirstSome(lines[i..], ParseCommit) == FirstSome(lines, ParseCommit)
    {
      var commit := ParseCommit(lines[i]);
      assert lines[i..][0] == lines[i] && lines[i..][1..] == lines[i + 1..];
      if commit.Some? {
        return Ok(commit);
      }
      i := i + 1;
    }
    return Ok(None);
  }

  method LoadRemote(name: string, sr: LineReader) returns (remote: Remote, line: Option<string>)
    modifies sr
    ensures var (url, line', rest') := RemoteFrom(Next(old(sr.rest)).0, Next(old(sr.rest)).1);
            remote == NewRemote(name, url) && line == line' && sr.rest == rest'
  {
    ghost var spec := RemoteFrom(Next(sr.rest).0, Next(sr.rest).1);
    line := sr.ReadLine();
    while IsNotNullOrEmpty(line)
      invariant RemoteFrom(line, sr.rest) == spec
      decreases |sr.rest|, if line.Some? then 1 else 0
    {
      var m := MatchValueLine(line.value);
      if m.Some? {
        if m.value.key == "url" {
          remote := NewRemote(name, m.value.value);
          return;
        }
      } else {
        break;
      }
      line := sr.ReadLine();
    }
    remote := NewRemote(name, "");
  }

  method LoadBranch(name: string, sr: LineReader, path: string, exec: Exec) returns (r: Result<PendingBranch>, line: Option<string>)
    modifies sr
    ensures var (remote, merge, line', rest') := BranchFrom(Next(old(sr.rest)).0, Next(old(sr.rest)).1, None, None);
            r == BuildBranch(name, remote, merge, path, exec) && line == line' && sr.rest == rest'
  {
    ghost var spec := BranchFrom(Next(sr.rest).0, Next(sr.rest).1, None, None);
    line := sr.ReadLine();
    var remoteValue: Option<string> := None;
    var mergeValue: Option<string> := None;
    while IsNotNullOrEmpty(line)
      invariant BranchFrom(line, sr.rest, remoteValue, mergeValue) == spec
      decreases |sr.rest|, if line.Some? then 1 else 0
    {
      var m := MatchValueLine(line.value);
      if m.Some? {
        if m.value.key == "remote" {
          remoteValue := Some(m.value.value);
        } else if m.value.key == "merge" {
          mergeValue := Some(m.value.value);
        }
      } else {
        break;
      }
      line := sr.ReadLine();
    }
    if IsNotNullOrEmpty(remoteValue) && IsNotNullOrEmpty(mergeValue) {
      var lastCommit := GetBranchLastCommit(path, name, exec);
      match lastCommit
      case Fail(m) => r := Fail(m);
      case Ok(c) => r := Ok(Linked(name, remoteValue.value, mergeValue.value, c));
    } else {
      r := Ok(Unlinked(name));
    }
  }

  method LoadBranches(path: string, configs: map<string, seq<string>>, exec: Exec) returns (r: Result<seq<Branch>>)
    ensures r == LoadBranchesSpec(path, configs, exec)
  {
    if path !in configs {
      return Fail(InvalidGitDir(path));
    }
    var lines := configs[path];
    var sr := new LineReader(lines);
    var remotes: seq<Remote> := [];
    var pending: seq<PendingBranch> := [];
    ghost var done: seq<Decl> := [];
    var line := sr.ReadLine();
    while line.Some?
      invariant Decls(lines) == done + ScanTop(line, sr.rest)
      invariant remotes == RemotesOf(done)
      invariant PendingOf(done, path, exec) == Ok(pending)
      decreases |sr.rest|, if line.Some? then 1 else 0
    {
      var remoteName := MatchHeader(line.value, "remote");
      if remoteName.Some? {
        ghost var d := RemoteDecl(remoteName.value, RemoteFrom(Next(sr.rest).0, Next(sr.rest).1).0);
        ghost var before := (line, sr.rest);
        var remote;
        remote, line := LoadRemote(remoteName.value, sr);
        ScanStep(done, d, before.0, before.1, line, sr.rest);
        RemoteStep(done, d, path, exec);
        remotes := remotes + [remote];
        done := done + [d];
        continue;
      }
      var branchName := MatchHeader(line.value, "branch");
      if branchName.Some? {
        ghost var spec := BranchFrom(Next(sr.rest).0, Next(sr.rest).1, None, None);
        ghost var d := BranchDecl(Section(branchName.value, spec.0, spec.1));
        ghost var before := (line, sr.rest);
        var built;
        built, line := LoadBranch(branchName.value, sr, path, exec);
        ScanStep(done, d, before.0, before.1, line, sr.rest);
        BranchStep(done, d, ScanTop(line, sr.rest), pending, path, exec);
        if built.Fail? {
          return Fail(built.message);
        }
        pending := pending + [built.value];
        done := done + [d];
        continue;
      }
      line := sr.ReadLine();
    }
    assert done == Decls(lines);
    r := ResolveBranches(pending, remotes);
  }

  /** The section the scan reads next, then the scan from where that section stopped. */
  lemma ScanStep(done: seq<Decl>, d: Decl, line: Option<string>, rest: seq<string>, line': Option<string>, rest': seq<string>)
    requires ScanTop(line, rest) == [d] + ScanTop(line', rest')
    ensures done + ScanTop(line, rest) == (done + [d]) + ScanTop(line', rest')
  {
  }

  /** Branch.ToString for every branch read, which looks each linked branch's remote up
      among all remotes of the file. */
  method ResolveBranches(pending: seq<PendingBranch>, remotes: seq<Remote>) returns (r: Result<seq<Branch>>)
    ensures r == ResolveAll(pending, remotes)
  {
    var branches: seq<Branch> := [];
    var i := 0;
    while i < |pending|
      invariant 0 <= i <= |pending|
      invariant ResolveAll(pending[..i], remotes) == Ok(branches)
    {
      var b := Resolve(pending[i], remotes);
      if b.Fail? {
        ResolveStops(pending, i, remotes, branches);
        return Fail(b.message);
      }
      ResolveStep(pending, i, remotes, branches);
      branches := branches + [b.value];
      i := i + 1;
    }
    assert pending[..i] == pending;
    r := Ok(branches);
  }

  /** One more branch resolved: it joins the list. */
  lemma ResolveStep(pending: seq<PendingBranch>, i: nat, remotes: seq<Remote>, branches: seq<Branch>)
    requires i < |pending| && ResolveAll(pending[..i], remotes) == Ok(branches)
    requires Resolve(pending[i], remotes).Ok?
    ensures ResolveAll(pending[..i + 1], remotes) == Ok(branches + [Resolve(pending[i], remotes).value])
  {
    MapResultSnoc(pending[..i], pending[i], ResolveWith(remotes));
    assert pending[..i + 1] == pending[..i] + [pending[i]];
  }

  /** A failing lookup is the result of the whole list, whatever follows it. */
  lemma ResolveStops(pending: seq<PendingBranch>, i: nat, remotes: seq<Remote>, branches: seq<Branch>)
    requires i < |pending| && ResolveAll(pending[..i], remotes) == Ok(branches)
    requires Resolve(pending[i], remotes).Fail?
    ensures ResolveAll(pending, remotes) == Fail(Resolve(pending[i], remotes).message)
  {
    MapResultStops(pending, i, ResolveWith(remotes));
  }

  /** One more section: the remotes and the branch sections grow by at most that one. */
  lemma DeclStep(done: seq<Decl>, d: Decl)
    ensures RemotesOf(done + [d]) == RemotesOf(done) + (if d.RemoteDecl? then [NewRemote(d.name, d.url)] else [])
    ensures SectionsOf(done + [d]) == SectionsOf(done) + (if d.BranchDecl? then [d.section] else [])
  {
    assert (done + [d])[..|done|] == done;
  }

  /** A remote section adds a remote and no branch. */
  lemma RemoteStep(done: seq<Decl>, d: Decl, path: string, exec: Exec)
    requires d.RemoteDecl?
    ensures RemotesOf(done + [d]) == RemotesOf(done) + [NewRemote(d.name, d.url)]
    ensures PendingOf(done + [d], path, exec) == PendingOf(done, path, exec)
  {
    DeclStep(done, d);
    assert SectionsOf(done + [d]) == SectionsOf(done) + [];
    assert SectionsOf(done) + [] == SectionsOf(done);
  }

  /** A branch section adds its branch, or stops the reading when its git call fails,
      whatever follows. */
  lemma BranchStep(done: seq<Decl>, d: Decl, later: seq<Decl>, pending: seq<PendingBranch>, path: string, exec: Exec)
    requires d.BranchDecl? && PendingOf(done, path, exec) == Ok(pending)
    ensures RemotesOf(done + [d]) == RemotesOf(done)
    ensures var b := BuildWith(path, exec)(d.section);
            if b.Ok? then PendingOf(done + [d], path, exec) == Ok(pending + [b.value])
            else PendingOf(done + [d] + later, path, exec) == Fail(b.message)
  {
    DeclStep(done, d);
    MapResultSnoc(SectionsOf(done), d.section, BuildWith(path, exec));
    if BuildWith(path, exec)(d.section).Fail? {
      SectionsAppend(done + [d], later);
      MapResultFailPrefix(SectionsOf(done + [d]), SectionsOf(later), BuildWith(path, exec));
    }
  }

  lemma {:induction false} SectionsAppend(a: seq<Decl>, b: seq<Decl>)
    ensures SectionsOf(a + b) == SectionsOf(a) + SectionsOf(b)
    decreases |b|
  {
    if b == [] {
      assert a + b == a;
    } else {
      var n := |b| - 1;
      assert (a + b)[..|a + b| - 1] == a + b[..n];
      assert (a + b)[|a + b| - 1] == b[n];
      SectionsAppend(a, b[..n]);
    }
  }
}
