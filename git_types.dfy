/**
 * The records the git layer (src-tauri/src/git/mod.rs) hands to the front end, and the
 * shape of a finished child process, which is how the model receives what git printed.
 */
module GitTypes {
  import opened Wrappers

  /** What a finished `git …` process left behind: its exit status and both streams. */
  datatype ProcessOutput = ProcessOutput(success: bool, stdout: string, stderr: string)

  /**
   * The git executable as the model sees it: the arguments of one invocation determine what
   * it prints. Operations that run git several times receive this and choose the arguments.
   */
  type Git = seq<string> -> ProcessOutput

  /**
   * A result together with the argument lists of the git invocations that produced it, in
   * order, so that "refuses to run" and "runs A before B" are statements about the model.
   */
  datatype Outcome<T> = Outcome(result: Result<T, string>, ran: seq<seq<string>>)

  datatype FileStatus = FileStatus(path: string, status: string, staged: bool)

  datatype Branch = Branch(name: string, current: bool, remote: bool)

  datatype CommitInfo = CommitInfo(hash: string, message: string, author: string, date: string)

  datatype CommitShortStat = CommitShortStat(filesChanged: Option<nat>, insertions: Option<nat>, deletions: Option<nat>)

  datatype RepoStatus = RepoStatus(files: seq<FileStatus>, currentBranch: string, ahead: nat, behind: nat)

  datatype InitRepoOptions = InitRepoOptions(
    path: string,
    name: string,
    description: Option<string>,
    defaultBranch: string,
    addReadme: bool,
    gitignoreTemplate: Option<string>,
    license: Option<string>,
    initialCommit: bool,
    commitMessage: Option<string>)

  datatype InitRepoResult = InitRepoResult(createdFiles: seq<string>, skippedFiles: seq<string>)

  datatype MergePreview = MergePreview(canFastForward: bool, conflicts: seq<string>, filesChanged: nat, insertions: nat, deletions: nat)

  datatype MergeResult = MergeResult(fastForward: bool, summary: string, conflicts: seq<string>)

  datatype BranchComparison = BranchComparison(ahead: nat, behind: nat, commits: seq<CommitInfo>, diffSummary: string)

  /** One conflict region of a file; `startLine` and `endLine` are 1-based marker line numbers. */
  datatype ConflictHunk = ConflictHunk(
    id: nat,
    oursContent: string,
    theirsContent: string,
    oursLabel: string,
    theirsLabel: string,
    startLine: nat,
    endLine: nat,
    contextBefore: seq<string>,
    contextAfter: seq<string>)

  datatype ConflictFile = ConflictFile(path: string, conflicts: seq<ConflictHunk>, content: string, isBinary: bool)

  datatype Worktree = Worktree(path: string, branch: string, isMain: bool)
}
