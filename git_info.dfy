/**
 * The commit-information and diff steps of the diff generator, as pure
 * functions over what git answers. A repository is a `Git` oracle: the process
 * result of each git command line. Two calls with the same command line give
 * the same answer, as they do on a repository that does not change meanwhile.
 */
module GitInfo {
  import opened Str

  /** What a finished git process reports. */
  datatype GitProcess = GitProcess(stdout: string, stderr: string, code: int)

  /** A repository seen through git: the process result of each command line. */
  type Git = seq<string> -> GitProcess

  /** The object id of git's empty tree, compared against on the first commit. */
  const EmptyTree := "4b825dc642cb6eb9a060e54bf8d69288fbee4904"
  const InitialMessage := "Initial commit (empty tree)"
  const NoStatistics := "No statistics available (possibly initial commit)"

  /** The output and status of one command, as `run_git_command` returns them. */
  datatype CommandResult = CommandResult(output: string, code: int)

  /**
   * A command that exits with status 0 gives its standard output with the
   * surrounding whitespace stripped; any other status gives the raw standard
   * error and that status.
   */
  function RunGitCommand(git: Git, command: seq<string>): (r: CommandResult)
    ensures r.code == git(command).code
    ensures r.code == 0 ==> r.output == Strip(git(command).stdout)
    ensures r.code != 0 ==> r.output == git(command).stderr
  {
    var p := git(command);
    if p.code == 0 then CommandResult(Strip(p.stdout), 0) else CommandResult(p.stderr, p.code)
  }

  /** A successful command's output has no whitespace at either end. */
  lemma SuccessOutputTrimmed(git: Git, command: seq<string>)
    requires git(command).code == 0
    ensures var out := RunGitCommand(git, command).output;
      out == [] || (!IsSpace(out[0]) && !IsSpace(out[|out| - 1]))
  {
    StripTrims(git(command).stdout);
  }

  /** A reference exists exactly when `git rev-parse --verify` accepts it. */
  function CheckCommitExists(git: Git, commitRef: string): (verified: bool)
    ensures verified <==> git(["git", "rev-parse", "--verify", commitRef]).code == 0
  {
    RunGitCommand(git, ["git", "rev-parse", "--verify", commitRef]).code == 0
  }

  /** The commit information of the diff generator, with every field a string or flag. */
  datatype CommitInfo = CommitInfo(
    currentCommit: string,
    previousCommit: string,
    currentMessage: string,
    previousMessage: string,
    author: string,
    timestamp: string,
    isInitialCommit: bool)

  /** The output of a command, whatever its status. */
  function Output(git: Git, command: seq<string>): string {
    RunGitCommand(git, command).output
  }

  const SubjectFormat := "--pretty=format:%s"

  /**
   * The current and previous commits with their subjects and the author. When
   * `HEAD~1` does not verify, the previous commit is the empty tree with a fixed
   * message. `timestamp` stands for the clock reading taken when the record is
   * built.
   */
  function GetCommitInfo(git: Git, timestamp: string): (info: CommitInfo)
    ensures info.isInitialCommit <==> !CheckCommitExists(git, "HEAD~1")
    ensures info.isInitialCommit ==> info.previousCommit == EmptyTree && info.previousMessage == InitialMessage
    ensures !info.isInitialCommit ==>
      && info.previousCommit == Output(git, ["git", "rev-parse", "HEAD~1"])
      && info.previousMessage == Output(git, ["git", "log", "-1", SubjectFormat, "HEAD~1"])
    ensures info.currentCommit == Output(git, ["git", "rev-parse", "HEAD"])
    ensures info.currentMessage == Output(git, ["git", "log", "-1", SubjectFormat])
    ensures info.author == Output(git, ["git", "log", "-1", "--pretty=format:%an"])
    ensures info.timestamp == timestamp
  {
    var currentCommit := Output(git, ["git", "rev-parse", "HEAD"]);
    var hasParent := CheckCommitExists(git, "HEAD~1");
    var previousCommit := if hasParent then Output(git, ["git", "rev-parse", "HEAD~1"]) else EmptyTree;
    var currentMessage := Output(git, ["git", "log", "-1", SubjectFormat]);
    var previousMessage :=
      if hasParent then Output(git, ["git", "log", "-1", SubjectFormat, "HEAD~1"]) else InitialMessage;
    var author := Output(git, ["git", "log", "-1", "--pretty=format:%an"]);
    CommitInfo(currentCommit, previousCommit, currentMessage, previousMessage, author, timestamp,
      !CheckCommitExists(git, "HEAD~1"))
  }

  /**
   * On a repository with a single commit the record depends only on the
   * `--verify`, `HEAD`, subject and author queries: whatever git would answer
   * for `HEAD~1`'s hash or subject is never consulted.
   */
  lemma InitialCommitIgnoresParentQueries(git: Git, git': Git, timestamp: string)
    requires git(["git", "rev-parse", "--verify", "HEAD~1"]).code != 0
    requires git'(["git", "rev-parse", "--verify", "HEAD~1"]) == git(["git", "rev-parse", "--verify", "HEAD~1"])
    requires git'(["git", "rev-parse", "HEAD"]) == git(["git", "rev-parse", "HEAD"])
    requires git'(["git", "log", "-1", SubjectFormat]) == git(["git", "log", "-1", SubjectFormat])
    requires git'(["git", "log", "-1", "--pretty=format:%an"]) == git(["git", "log", "-1", "--pretty=format:%an"])
    ensures GetCommitInfo(git', timestamp) == GetCommitInfo(git, timestamp)
  {
  }

  /** The `git diff` command line with `n` lines of context around each change. */
  function DiffCommand(contextLines: int, previousCommit: string, currentCommit: string): (command: seq<string>)
    ensures |command| == 5 && command[..2] == ["git", "diff"]
    ensures StartsWith(command[2], "-U") && command[3] == previousCommit && command[4] == currentCommit
  {
    ["git", "diff", "-U" + IntToString(contextLines), previousCommit, currentCommit]
  }

  /** The context option of the diff command reads back as the count it was built from. */
  lemma DiffCommandCarriesContext(n: nat, previousCommit: string, currentCommit: string)
    ensures var option := DiffCommand(n, previousCommit, currentCommit)[2];
      AllDigits(option[2..]) && ParseDigits(option[2..]) == n
  {
    var option := DiffCommand(n, previousCommit, currentCommit)[2];
    assert option[2..] == NatToString(n);
    ParseNatToString(n);
  }

  /**
   * The diff text; a failing diff still gives its error text, which takes the
   * diff's place in the reports.
   */
  function GenerateDiff(git: Git, contextLines: int, previousCommit: string, currentCommit: string): (diff: string)
    ensures var p := git(DiffCommand(contextLines, previousCommit, currentCommit));
      && (p.code == 0 ==> diff == Strip(p.stdout))
      && (p.code != 0 ==> diff == p.stderr)
  {
    Output(git, DiffCommand(contextLines, previousCommit, currentCommit))
  }

  /** The `git diff --stat` command line between two commits. */
  function StatCommand(previousCommit: string, currentCommit: string): seq<string> {
    ["git", "diff", "--stat", previousCommit, currentCommit]
  }

  /** The change statistics, or the fixed fallback text when git fails. */
  function GetChangedFilesStats(git: Git, previousCommit: string, currentCommit: string): (stats: string)
    ensures git(StatCommand(previousCommit, currentCommit)).code != 0 ==> stats == NoStatistics
    ensures git(StatCommand(previousCommit, currentCommit)).code == 0 ==>
      stats == Strip(git(StatCommand(previousCommit, currentCommit)).stdout)
  {
    var r := RunGitCommand(git, StatCommand(previousCommit, currentCommit));
    if r.code != 0 then NoStatistics else r.output
  }

  /** What the command line entry point does before any git work. */
  datatype Launch = Exit(status: int) | Generate(contextLines: nat)

  /**
   * A negative context count or a working directory without `.git` ends the
   * program with status 1; otherwise generation proceeds with the count.
   */
  function CheckArguments(contextLines: int, gitDirectoryExists: bool): (launch: Launch)
    ensures launch.Generate? <==> contextLines >= 0 && gitDirectoryExists
    ensures launch.Generate? ==> launch.contextLines == contextLines
    ensures launch.Exit? ==> launch.status == 1
  {
    if contextLines < 0 then Exit(1)
    else if !gitDirectoryExists then Exit(1)
    else Generate(contextLines)
  }
}
