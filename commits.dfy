/** The records of GitManager.cs (Commit, RemoteBranch, Branch) and the two parsers
    that read commits from program output: ParseCommit for the tagged line of the log
    template, ParseMinimalCommit for a line of `git ls-remote --heads`. */
module Commits {
  import opened Base
  import opened StringExtensions
  import opened Patterns
  import opened Remotes

  /** A commit. `date` is the date text as printed by git; None stands for the moment
      the commit object was made (DateTime.Now). A short commit, read from ls-remote,
      knows only its hash and branch. */
  datatype Commit = Commit(
    hash: string,
    committer: Option<string>,
    email: Option<string>,
    date: Option<string>,
    subject: Option<string>,
    branch: string,
    isShort: bool)

  /** The six-argument Commit constructor: a null or empty date becomes "now". */
  function FullCommit(hash: string, committer: Option<string>, email: Option<string>, date: Option<string>,
                      subject: Option<string>, branch: string): (c: Commit)
    ensures !c.isShort && c.hash == hash && c.branch == branch
    ensures c.committer == committer && c.email == email && c.subject == subject
    ensures c.date.Some? <==> date.Some? && date.value != ""
    ensures c.date.Some? ==> c.date == date
  {
    Commit(hash, committer, email, if IsNotNullOrEmpty(date) then date else None, subject, branch, false)
  }

  /** The two-argument constructor: everything but hash and branch null, and short. */
  function ShortCommit(hash: string, branch: string): (c: Commit)
    ensures c.isShort && c.hash == hash && c.branch == branch
    ensures c.committer.None? && c.email.None? && c.subject.None? && c.date.None?
  {
    FullCommit(hash, None, None, None, None, branch).(isShort := true)
  }

  /** A remote branch: the ref path of a `merge` value, its last segment as name, and
      the remote it is tracked on. */
  datatype RemoteBranch = RemoteBranch(name: string, branchPath: string, remote: Remote)

  /** The RemoteBranch constructor: the name is the text after the last `/`. */
  function NewRemoteBranch(branchPath: string, remote: Remote): (rb: RemoteBranch)
    ensures rb.branchPath == branchPath && rb.remote == remote
    ensures '/' !in rb.name
    ensures |rb.name| <= |branchPath| && branchPath[|branchPath| - |rb.name|..] == rb.name
    ensures |rb.name| < |branchPath| ==> branchPath[|branchPath| - |rb.name| - 1] == '/'
  {
    RemoteBranch(LastSegment(branchPath, '/'), branchPath, remote)
  }

  /** `refs/heads/<name>` tracks the branch `<name>`. */
  lemma RemoteBranchNameOf(dir: string, name: string, remote: Remote)
    requires '/' !in name
    ensures NewRemoteBranch(dir + "/" + name, remote).name == name
  {
    LastSegmentOfPath(dir, name, '/');
  }

  /** A local branch; without a remote branch it has no last commit either, and with one
      the last commit may still be absent (git printed no line of the log template). */
  datatype Branch = Branch(name: string, remote: Option<RemoteBranch>, lastCommit: Option<Commit>)

  // ---------------------------------------------------------------------------
  // ParseMinimalCommit: `^([a-z0-9]+)\s+([^\s]+)$`

  predicate IsHashChar(c: char) {
    ('a' <= c <= 'z') || ('0' <= c <= '9')
  }

  predicate IsNotWhiteSpace(c: char) {
    !IsWhiteSpace(c)
  }

  /** The groups of an ls-remote line: hash, the white space after it, the ref path. */
  datatype LsRemoteLine = LsRemoteLine(hash: string, gap: string, ref: string)

  function RenderLsRemote(l: LsRemoteLine): string {
    l.hash + (l.gap + l.ref)
  }

  predicate WellFormedLsRemote(l: LsRemoteLine) {
    && l.hash != "" && All(l.hash, IsHashChar)
    && l.gap != "" && All(l.gap, IsWhiteSpace)
    && l.ref != "" && All(l.ref, IsNotWhiteSpace)
  }

  function MatchLsRemote(line: string): (r: Option<LsRemoteLine>)
    ensures r.Some? ==> WellFormedLsRemote(r.value) && RenderLsRemote(r.value) == line
  {
    var (hash, s) := TakeWhile(line, IsHashChar);
    var (gap, t) := TakeWhile(s, IsWhiteSpace);
    var (ref, rest) := TakeWhile(t, IsNotWhiteSpace);
    if hash != "" && gap != "" && ref != "" && rest == "" then
      assert t == ref;
      Some(LsRemoteLine(hash, gap, ref))
    else None
  }

  lemma MatchLsRemoteOf(l: LsRemoteLine)
    requires WellFormedLsRemote(l)
    ensures MatchLsRemote(RenderLsRemote(l)) == Some(l)
  {
    assert l.ref + "" == l.ref;
    TakeWhileOf(l.ref, "", IsNotWhiteSpace);
    TakeWhileOf(l.gap, l.ref, IsWhiteSpace);
    TakeWhileOf(l.hash, l.gap + l.ref, IsHashChar);
  }

  /** A short commit for a line of the pattern, or None. The branch is the last `/`
      segment of the ref path (String.Split always yields at least one piece, so the
      source's "Invalid format" branch cannot be taken). */
  function ParseMinimalCommit(line: string): (r: Option<Commit>)
    ensures r.Some? <==> MatchLsRemote(line).Some?
    ensures r.Some? ==> r.value.isShort && r.value.hash == MatchLsRemote(line).value.hash
    ensures r.Some? ==> r.value.committer.None? && r.value.email.None? && r.value.subject.None?
    ensures r.Some? ==> '/' !in r.value.branch
  {
    match MatchLsRemote(line)
    case None => None
    case Some(l) => Some(ShortCommit(l.hash, LastSegment(l.ref, '/')))
  }

  /** `<hash><white space><dir>/<name>` is read as the short commit of `<name>`. */
  lemma ParseMinimalCommitOf(hash: string, gap: string, dir: string, name: string)
    requires hash != "" && All(hash, IsHashChar) && gap != "" && All(gap, IsWhiteSpace)
    requires All(dir, IsNotWhiteSpace) && name != "" && All(name, IsNotWhiteSpace) && '/' !in name
    ensures ParseMinimalCommit(hash + gap + (dir + "/" + name)) == Some(ShortCommit(hash, name))
  {
    var ref := dir + "/" + name;
    assert All(ref, IsNotWhiteSpace) by {
      assert forall i :: 0 <= i < |ref| ==> ref[i] == if i < |dir| then dir[i] else if i == |dir| then '/' else name[i - |dir| - 1];
    }
    var l := LsRemoteLine(hash, gap, ref);
    assert RenderLsRemote(l) == hash + gap + ref;
    MatchLsRemoteOf(l);
    LastSegmentOfPath(dir, name, '/');
  }

  // ---------------------------------------------------------------------------
  // ParseCommit: `^<(\w+)>1 <([^\0]+)>2 <([^\0]+)>3 <([^\0]+)>4 <([^\0]+)>5 <\s\(([^\)\(]+)\)>6`

  const Delim1 := ">1 <"
  const Delim2 := ">2 <"
  const Delim3 := ">3 <"
  const Delim4 := ">4 <"
  const Delim5 := ">5 <"
  const RefsEnd := ")>6"

  predicate IsNotParen(c: char) {
    c != '(' && c != ')'
  }

  /** The groups of a log line: hash, author, email, date, subject, the white space
      character before the parenthesis, the ref names, and whatever follows `)>6`. */
  datatype LogLine = LogLine(hash: string, author: string, email: string, date: string, subject: string,
                             gap: char, refs: string, tail: string)

  /** The line the log template prints for these values. */
  function RenderLogLine(l: LogLine): string {
    "<" + (l.hash + (Delim1 + (l.author + (Delim2 + (l.email + (Delim3 + (l.date + (Delim4 + (l.subject + (Delim5 +
      ([l.gap] + ("(" + (l.refs + (RefsEnd + l.tail))))))))))))))
  }

  /** A `[^\0]+` field that ends at the first occurrence of its delimiter. */
  predicate FieldBefore(f: string, delim: string) {
    f != "" && '\0' !in f && !Contains(f, delim)
  }

  /** The groups of a line that the first-occurrence reading takes apart again: each
      field is free of its own delimiter. A field may still hold a later field's
      delimiter, where a backtracking engine reading from the greedy end can split the
      line differently. */
  predicate WellFormedLogLine(l: LogLine) {
    && l.hash != "" && All(l.hash, IsWordChar)
    && FieldBefore(l.author, Delim2)
    && FieldBefore(l.email, Delim3)
    && FieldBefore(l.date, Delim4)
    && FieldBefore(l.subject, Delim5)
    && IsWhiteSpace(l.gap)
    && l.refs != "" && All(l.refs, IsNotParen)
  }

  /** A field up to the first occurrence of `delim`, and the text after the delimiter. */
  function SplitField(s: string, delim: string): (r: Option<(string, string)>)
    requires delim != ""
    ensures r.Some? ==> FieldBefore(r.value.0, delim) && s == r.value.0 + (delim + r.value.1)
  {
    match IndexOf(s, delim)
    case None => None
    case Some(i) =>
      var f := s[..i];
      PrefixBeforeFirstIsFree(s, delim, i);
      assert s == f + (delim + s[i + |delim|..]);
      if f != "" && '\0' !in f then Some((f, s[i + |delim|..])) else None
  }

  lemma DelimitersBorderFree()
    ensures BorderFree(Delim2) && BorderFree(Delim3) && BorderFree(Delim4) && BorderFree(Delim5)
  {
    forall k | 0 < k < 4 ensures Delim2[..k] != Delim2[4 - k..] && Delim3[..k] != Delim3[4 - k..]
                             && Delim4[..k] != Delim4[4 - k..] && Delim5[..k] != Delim5[4 - k..] {
      assert Delim2[..k][0] == '>' && Delim3[..k][0] == '>' && Delim4[..k][0] == '>' && Delim5[..k][0] == '>';
      assert Delim2[4 - k..][0] != '>' && Delim3[4 - k..][0] != '>' && Delim4[4 - k..][0] != '>' && Delim5[4 - k..][0] != '>';
    }
  }

  lemma SplitFieldOf(f: string, delim: string, rest: string)
    requires delim != "" && BorderFree(delim) && FieldBefore(f, delim)
    ensures SplitField(f + (delim + rest), delim) == Some((f, rest))
  {
    assert f + (delim + rest) == f + delim + rest;
    IndexOfAfterFree(f, delim, rest);
    var s := f + (delim + rest);
    assert s[..|f|] == f && s[|f| + |delim|..] == rest;
  }

  /** What follows `>5 <`: `\s\(([^\)\(]+)\)>6`, then anything. */
  function MatchRefs(s: string): (r: Option<(char, string, string)>)
    ensures r.Some? ==> IsWhiteSpace(r.value.0) && r.value.1 != "" && All(r.value.1, IsNotParen)
    ensures r.Some? ==> s == [r.value.0] + ("(" + (r.value.1 + (RefsEnd + r.value.2)))
  {
    if |s| < 2 || !IsWhiteSpace(s[0]) || s[1] != '(' then None
    else
      var (refs, after) := TakeWhile(s[2..], IsNotParen);
      if refs == "" || !StartsWith(after, RefsEnd) then None
      else
        assert after == RefsEnd + after[|RefsEnd|..];
        assert s == [s[0]] + ("(" + s[2..]);
        Some((s[0], refs, after[|RefsEnd|..]))
  }

  lemma MatchRefsOf(gap: char, refs: string, tail: string)
    requires IsWhiteSpace(gap) && refs != "" && All(refs, IsNotParen)
    ensures MatchRefs([gap] + ("(" + (refs + (RefsEnd + tail)))) == Some((gap, refs, tail))
  {
    var s := [gap] + ("(" + (refs + (RefsEnd + tail)));
    assert s[2..] == refs + (RefsEnd + tail);
    TakeWhileOf(refs, RefsEnd + tail, IsNotParen);
    assert (RefsEnd + tail)[|RefsEnd|..] == tail;
  }

  /** The groups of `_RgxLogLine` on a line, each `[^\0]+` field ending at the first
      occurrence of its delimiter. */
  function MatchLogLine(line: string): (r: Option<LogLine>)
    ensures r.Some? ==> WellFormedLogLine(r.value) && RenderLogLine(r.value) == line
  {
    if line == [] || line[0] != '<' then None
    else
      var (hash, s1) := TakeWhile(line[1..], IsWordChar);
      if hash == "" || !StartsWith(s1, Delim1) then None
      else
        assert line == "<" + (hash + (Delim1 + s1[|Delim1|..]));
        match SplitField(s1[|Delim1|..], Delim2)
        case None => None
        case Some((author, s2)) =>
          match SplitField(s2, Delim3)
          case None => None
          case Some((email, s3)) =>
            match SplitField(s3, Delim4)
            case None => None
            case Some((date, s4)) =>
              match SplitField(s4, Delim5)
              case None => None
              case Some((subject, s5)) =>
                match MatchRefs(s5)
                case None => None
                case Some((gap, refs, tail)) => Some(LogLine(hash, author, email, date, subject, gap, refs, tail))
  }

  /** Every well-formed log line is read back with the values it was printed from. */
  lemma MatchLogLineOf(l: LogLine)
    requires WellFormedLogLine(l)
    ensures MatchLogLine(RenderLogLine(l)) == Some(l)
  {
    DelimitersBorderFree();
    var s5 := [l.gap] + ("(" + (l.refs + (RefsEnd + l.tail)));
    MatchRefsOf(l.gap, l.refs, l.tail);
    var s4 := l.subject + (Delim5 + s5);
    SplitFieldOf(l.subject, Delim5, s5);
    var s3 := l.date + (Delim4 + s4);
    SplitFieldOf(l.date, Delim4, s4);
    var s2 := l.email + (Delim3 + s3);
    SplitFieldOf(l.email, Delim3, s3);
    var s1 := l.author + (Delim2 + s2);
    SplitFieldOf(l.author, Delim2, s2);
    var line := RenderLogLine(l);
    assert line[1..] == l.hash + (Delim1 + s1);
    assert (Delim1 + s1)[0] == '>';
    TakeWhileOf(l.hash, Delim1 + s1, IsWordChar);
    assert (Delim1 + s1)[..|Delim1|] == Delim1 && (Delim1 + s1)[|Delim1|..] == s1;
  }

  /** The branch label of a `%d` ref list: the last comma-separated entry, trimmed. */
  function BranchLabel(refs: string): (r: string)
    ensures IsTrimmed(r) && ',' !in r
  {
    var last := LastSegment(refs, ',');
    CharOfTrim(last, ',');
    Trim(last)
  }

  lemma {:induction false} JoinSnoc(xs: seq<string>, x: string, sep: string)
    requires |xs| >= 1
    ensures Join(xs + [x], sep) == Join(xs, sep) + sep + x
    decreases |xs|
  {
    if |xs| == 1 {
      assert xs + [x] == [xs[0], x];
    } else {
      assert (xs + [x])[1..] == xs[1..] + [x];
      JoinSnoc(xs[1..], x, sep);
    }
  }

  /** The `%d` of a commit lists its refs separated by ", "; the label is the last one. */
  lemma BranchLabelOfRefList(names: seq<string>)
    requires |names| >= 1
    requires var last := names[|names| - 1]; IsTrimmed(last) && ',' !in last
    ensures BranchLabel(Join(names, ", ")) == names[|names| - 1]
  {
    var last := names[|names| - 1];
    if |names| == 1 {
      BranchLabelSingle(names);
    } else {
      var init := names[..|names| - 1];
      JoinLast(names, init, last);
      LastRefAfterComma(Join(init, ", "), last);
    }
  }

  lemma BranchLabelSingle(names: seq<string>)
    requires |names| == 1 && IsTrimmed(names[0]) && ',' !in names[0]
    ensures BranchLabel(Join(names, ", ")) == names[0]
  {
    assert Join(names, ", ") == names[0];
    LastSegmentWhole(names[0], ',');
    TrimKeepsTrimmed(names[0]);
  }

  lemma JoinLast(names: seq<string>, init: seq<string>, last: string)
    requires |names| >= 2 && init == names[..|names| - 1] && last == names[|names| - 1]
    ensures Join(names, ", ") == Join(init, ", ") + ", " + last
  {
    assert names == init + [last];
    JoinSnoc(init, last, ", ");
  }

  lemma LastSegmentWhole(s: string, c: char)
    requires c !in s
    ensures LastSegment(s, c) == s
  {
    assert forall i :: 0 <= i < |s| ==> s[i] != c;
    assert s[0..] == s;
  }

  lemma LastRefAfterComma(before: string, last: string)
    requires IsTrimmed(last) && ',' !in last
    ensures BranchLabel(before + ", " + last) == last
  {
    assert before + ", " + last == before + [','] + (" " + last);
    assert ',' !in " " + last;
    LastSegmentOfPath(before, " " + last, ',');
    TrimAfterSpace(last);
  }

  /** A full commit for a line of the log template, or None. Its branch is the label of
      the ref list. */
  function ParseCommit(line: string): (r: Option<Commit>)
    ensures r.Some? <==> MatchLogLine(line).Some?
    ensures r.Some? ==> var l := MatchLogLine(line).value;
      r.value == Commit(l.hash, Some(l.author), Some(l.email), Some(l.date), Some(l.subject), BranchLabel(l.refs), false)
  {
    match MatchLogLine(line)
    case None => None
    case Some(l) => Some(FullCommit(l.hash, Some(l.author), Some(l.email), Some(l.date), Some(l.subject), BranchLabel(l.refs)))
  }

  /** Printing a commit with the log template and parsing the line gives the commit
      back, labelled with the last of its refs. */
  lemma ParseCommitRoundTrip(l: LogLine, names: seq<string>)
    requires WellFormedLogLine(l)
    requires |names| >= 1 && l.refs == Join(names, ", ")
    requires var last := names[|names| - 1]; IsTrimmed(last) && ',' !in last
    ensures ParseCommit(RenderLogLine(l)) ==
      Some(Commit(l.hash, Some(l.author), Some(l.email), Some(l.date), Some(l.subject), names[|names| - 1], false))
  {
    MatchLogLineOf(l);
    BranchLabelOfRefList(names);
  }
}
