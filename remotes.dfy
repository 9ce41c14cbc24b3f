/** GitManager.Remote: a named remote of a working copy, with the ssh arguments that
    ask the remote host for the last commit of a branch. The arguments are computed
    once, from the URL, by matching it against `^(ssh://)*([\w]+)@([^:/]+)([:/]*)(.*)$`. */
module Remotes {
  import opened Base
  import opened StringExtensions
  import opened Patterns
  import opened Process

  const BranchNamePlaceholder := "%BRANCH_NAME%"

  /** FormatHelper.FORMAT_GitLog: one commit of the named branch as a tagged line. */
  const GitLogFormat := "log -1 %BRANCH_NAME% --pretty=format:\"<%H>1 <%an>2 <%ae>3 <%ai>4 <%s>5 <%d>6\""

  // ---------------------------------------------------------------------------
  // String.Replace

  /** `String.Replace(char, char)`. */
  function ReplaceChar(s: string, from: char, to: char): (r: string)
    ensures |r| == |s|
    ensures forall i :: 0 <= i < |s| ==> r[i] == (if s[i] == from then to else s[i])
  {
    if s == [] then ""
    else [if s[0] == from then to else s[0]] + ReplaceChar(s[1..], from, to)
  }

  lemma ReplaceCharRemoves(s: string, from: char, to: char)
    requires from != to
    ensures from !in ReplaceChar(s, from, to)
  {
    var r := ReplaceChar(s, from, to);
    forall i | 0 <= i < |r| ensures r[i] != from {
    }
  }

  lemma ContainsTail(s: string, oldValue: string)
    requires |s| > 0 && Contains(s[1..], oldValue)
    ensures Contains(s, oldValue)
  {
    var j :| 0 <= j <= |s[1..]| && OccursAt(s[1..], oldValue, j);
    OccursShift(s, oldValue, j + 1);
  }

  /** `String.Replace(string, string)`: every occurrence, scanned left to right and not
      overlapping, replaced. */
  function ReplaceAll(s: string, oldValue: string, newValue: string): (r: string)
    requires oldValue != ""
    ensures !Contains(s, oldValue) ==> r == s
    decreases |s|
  {
    if |s| < |oldValue| then s
    else if s[..|oldValue|] == oldValue then
      assert OccursAt(s, oldValue, 0) by { assert s[0..|oldValue|] == s[..|oldValue|]; }
      newValue + ReplaceAll(s[|oldValue|..], oldValue, newValue)
    else
      assert Contains(s[1..], oldValue) ==> Contains(s, oldValue) by {
        if Contains(s[1..], oldValue) { ContainsTail(s, oldValue); }
      }
      [s[0]] + ReplaceAll(s[1..], oldValue, newValue)
  }

  /** The log template as the ssh command carries it: inside double quotes, so its own
      double quotes become single quotes. */
  const QuotedGitLog := ReplaceChar(GitLogFormat, '"', '\'')

  lemma QuotedGitLogUnquoted()
    ensures '"' !in QuotedGitLog
  {
    ReplaceCharRemoves(GitLogFormat, '"', '\'');
  }

  // ---------------------------------------------------------------------------
  // The URL pattern

  const SshScheme := "ssh://"

  predicate IsHostChar(c: char) {
    c != ':' && c != '/'
  }

  predicate IsSepChar(c: char) {
    c == ':' || c == '/'
  }

  /** The groups of a match: how many `ssh://` were skipped, `user` (group 2), `host`
      (group 3), `sep` (group 4), `path` (group 5), and whether `$` matched before a
      final line feed rather than at the very end. */
  datatype SshUrl = SshUrl(schemes: nat, user: string, host: string, sep: string, path: string, finalNewline: bool)

  /** The text after the `@`: host, separator, path and the final line feed. */
  function RenderAuthority(u: SshUrl): string {
    u.host + (u.sep + (u.path + NewlineIf(u.finalNewline)))
  }

  /** The URL a match was read from. */
  function RenderSshUrl(u: SshUrl): string {
    Repeat(SshScheme, u.schemes) + (u.user + ("@" + RenderAuthority(u)))
  }

  /** The values groups 3 to 5 can take: every greedy group is maximal, so a non-empty
      path never starts with a separator character, and with an empty separator the
      host has consumed the rest of the URL. */
  predicate WellFormedAuthority(u: SshUrl) {
    && u.host != "" && All(u.host, IsHostChar)
    && All(u.sep, IsSepChar)
    && '\n' !in u.path
    && (u.path != "" ==> u.sep != "" && !IsSepChar(u.path[0]))
    && (u.sep == "" ==> !u.finalNewline)
  }

  predicate WellFormedSshUrl(u: SshUrl) {
    u.user != "" && All(u.user, IsWordChar) && WellFormedAuthority(u)
  }

  /** `(ssh://)*` at the start, taken as often as it occurs. */
  function StripSchemes(s: string): (r: (nat, string))
    ensures s == Repeat(SshScheme, r.0) + r.1
    ensures !StartsWith(r.1, SshScheme)
    decreases |s|
  {
    if StartsWith(s, SshScheme) then
      var (k, rest) := StripSchemes(s[|SshScheme|..]);
      assert s == SshScheme + s[|SshScheme|..];
      (k + 1, rest)
    else (0, s)
  }

  lemma StripSchemesOf(k: nat, s: string)
    requires !StartsWith(s, SshScheme)
    ensures StripSchemes(Repeat(SshScheme, k) + s) == (k, s)
  {
    if k > 0 {
      var t := Repeat(SshScheme, k) + s;
      assert t == SshScheme + (Repeat(SshScheme, k - 1) + s);
      assert t[..|SshScheme|] == SshScheme;
      assert t[|SshScheme|..] == Repeat(SshScheme, k - 1) + s;
      StripSchemesOf(k - 1, s);
    } else {
      assert Repeat(SshScheme, k) + s == s;
    }
  }

  function NewlineIf(b: bool): string {
    if b then "\n" else ""
  }

  /** `(.*)$`: the path, and whether `$` matched before a final line feed. */
  function MatchPath(rest: string): (r: Option<(string, bool)>)
    ensures r.Some? ==> '\n' !in r.value.0 && rest == r.value.0 + NewlineIf(r.value.1)
    ensures r.Some? && r.value.0 == "" && !r.value.1 ==> rest == ""
  {
    if '\n' !in rest then Some((rest, false))
    else if rest[|rest| - 1] == '\n' && '\n' !in rest[..|rest| - 1] then
      assert rest == rest[..|rest| - 1] + "\n";
      Some((rest[..|rest| - 1], true))
    else None
  }

  lemma MatchPathOf(path: string, nl: bool)
    requires '\n' !in path
    ensures MatchPath(path + NewlineIf(nl)) == Some((path, nl))
  {
    if nl {
      var rest := path + "\n";
      assert rest[..|rest| - 1] == path;
    } else {
      assert path + "" == path;
    }
  }

  /** Groups 3 to 5 matched against the text after the `@`. */
  function MatchAuthority(t: string): (r: Option<SshUrl>)
    ensures r.Some? ==> WellFormedAuthority(r.value) && RenderAuthority(r.value) == t
    ensures r.Some? ==> r.value.schemes == 0 && r.value.user == ""
  {
    var (host, u) := TakeWhile(t, IsHostChar);
    var (sep, rest) := TakeWhile(u, IsSepChar);
    if host == "" then None
    else
      match MatchPath(rest)
      case None => None
      case Some(pn) =>
        assert sep == "" ==> u == [];
        assert pn.0 != "" ==> pn.0[0] == rest[0];
        Some(SshUrl(0, "", host, sep, pn.0, pn.1))
  }

  lemma MatchAuthorityOf(u: SshUrl)
    requires WellFormedAuthority(u)
    ensures MatchAuthority(RenderAuthority(u)) == Some(u.(schemes := 0, user := ""))
  {
    var nl := NewlineIf(u.finalNewline);
    var rest := u.path + nl;
    assert rest == [] || !IsSepChar(rest[0]) by {
      if rest != [] && u.path == "" {
        assert rest[0] == '\n';
      }
    }
    TakeWhileOf(u.sep, rest, IsSepChar);
    assert u.sep + rest == [] || !IsHostChar((u.sep + rest)[0]) by {
      if u.sep == "" {
        assert u.path == "" && nl == "";
      }
    }
    TakeWhileOf(u.host, u.sep + rest, IsHostChar);
    MatchPathOf(u.path, u.finalNewline);
  }

  /** The match of `_SshUrl` against a URL, or None. Backtracking never helps this
      pattern: each greedy group is followed by a character its class excludes. */
  function MatchSshUrl(url: string): (r: Option<SshUrl>)
    ensures r.Some? ==> WellFormedSshUrl(r.value) && RenderSshUrl(r.value) == url
  {
    var (k, s) := StripSchemes(url);
    var (user, t) := TakeWhile(s, IsWordChar);
    if user == "" || t == [] || t[0] != '@' then None
    else
      match MatchAuthority(t[1..])
      case None => None
      case Some(a) =>
        assert t == "@" + t[1..];
        Some(a.(schemes := k, user := user))
  }

  /** Every well-formed group tuple is read back from the URL it renders. */
  lemma MatchSshUrlOfRender(u: SshUrl)
    requires WellFormedSshUrl(u)
    ensures MatchSshUrl(RenderSshUrl(u)) == Some(u)
  {
    var t := "@" + RenderAuthority(u);
    var s := u.user + t;
    assert !StartsWith(s, SshScheme) by {
      if |u.user| < |SshScheme| {
        assert s[|u.user|] == '@';
        assert SshScheme[|u.user|] != '@';
      } else {
        assert s[3] == u.user[3];
        assert !IsWordChar(SshScheme[3]);
      }
    }
    StripSchemesOf(u.schemes, s);
    TakeWhileOf(u.user, t, IsWordChar);
    assert t[1..] == RenderAuthority(u);
    MatchAuthorityOf(u);
  }

  // ---------------------------------------------------------------------------
  // GetCommand and the Remote record

  /** The ssh arguments for a matched URL: with a separator the remote command first
      changes to the path. */
  function SshArguments(u: SshUrl): string {
    if u.sep != "" then
      "-n " + u.user + "@" + u.host + " \"cd " + u.path + " && git " + QuotedGitLog + "\""
    else
      "-n " + u.user + "@" + u.host + " \"git " + QuotedGitLog + "\""
  }

  /** Remote.GetCommand: empty exactly when the URL does not match. */
  function GetCommand(url: string): (r: string)
    ensures r == "" <==> MatchSshUrl(url).None?
  {
    match MatchSshUrl(url)
    case None => ""
    case Some(u) => SshArguments(u)
  }

  /** The two shapes of the command, for every URL of the pattern. */
  lemma GetCommandOfRender(u: SshUrl)
    requires WellFormedSshUrl(u)
    ensures u.sep != "" ==>
      GetCommand(RenderSshUrl(u)) == "-n " + u.user + "@" + u.host + " \"cd " + u.path + " && git " + QuotedGitLog + "\""
    ensures u.sep == "" ==>
      GetCommand(RenderSshUrl(u)) == "-n " + u.user + "@" + u.host + " \"git " + QuotedGitLog + "\""
  {
    MatchSshUrlOfRender(u);
  }

  datatype Remote = Remote(name: string, url: string, lastCommitCommand: string)

  /** The Remote constructor: the command is derived from the URL once, here. */
  function NewRemote(name: string, url: string): (r: Remote)
    ensures r.name == name && r.url == url
    ensures r.lastCommitCommand == "" <==> MatchSshUrl(url).None?
  {
    Remote(name, url, GetCommand(url))
  }

  function HasLastCommitCommand(r: Remote): (b: bool)
    ensures b <==> r.lastCommitCommand != ""
  {
    IsNotNullOrEmpty(Some(r.lastCommitCommand))
  }

  /** A remote can be asked over ssh exactly when its URL has the ssh form. */
  lemma HasLastCommitCommandIff(name: string, url: string)
    ensures HasLastCommitCommand(NewRemote(name, url)) <==> MatchSshUrl(url).Some?
  {
  }

  // ---------------------------------------------------------------------------
  // The commands run for a remote

  /** The ssh query for the last commit of `branchName` on the remote host. */
  function SshQuery(remote: Remote, branchName: string): Command {
    Command("ssh", ReplaceAll(remote.lastCommitCommand, BranchNamePlaceholder, branchName), None)
  }

  /** `git ls-remote --heads <remote>`, run in the working copy. */
  function LsRemote(remoteName: string, path: string): Command {
    Command("git", "ls-remote --heads " + remoteName, Some(path))
  }
}
