/**
 * Repository-level operations of src-tauri/src/git/mod.rs: the reset mode table, branch
 * creation and deletion, checking out a remote branch, the `.gitignore` templates, and
 * `init_repository` with its validation and its README text.
 *
 * Git is the oracle `Git`; the directory `init_repository` works in is a `RepoDir` record
 * of what the filesystem would answer.
 */
module GitRepository {
  import opened Wrappers
  import opened Strings
  import opened GitTypes

  // ================================================================ reset

  const RESET_MODES: seq<string> := ["soft", "mixed", "hard", "keep"]

  /** `reset`'s mode match: a known mode, in any letter case, becomes its flag; others mixed. */
  function ResetFlag(mode: string): (flag: string)
    ensures ToLower(mode) in RESET_MODES ==> flag == "--" + ToLower(mode)
    ensures ToLower(mode) !in RESET_MODES ==> flag == "--mixed"
  {
    match ToLower(mode)
    case "soft" => "--soft"
    case "mixed" => "--mixed"
    case "hard" => "--hard"
    case "keep" => "--keep"
    case _ => "--mixed"
  }

  /** The flag depends on the letters of the mode only, never on their case. */
  lemma ResetFlagCaseBlind(a: string, b: string)
    requires ToLower(a) == ToLower(b)
    ensures ResetFlag(a) == ResetFlag(b)
  {
  }

  /** Every mode, known or not, selects one of git's four reset flags. */
  lemma ResetFlagKnown(mode: string)
    ensures ResetFlag(mode) in ["--soft", "--mixed", "--hard", "--keep"]
  {
  }

  function ResetArgs(commit: string, mode: string): seq<string> {
    ["reset", ResetFlag(mode), commit]
  }

  /** `reset`: one `git reset <flag> <commit>`. */
  function Reset(git: Git, commit: string, mode: string): (o: Outcome<()>)
    ensures o.ran == [ResetArgs(commit, mode)]
    ensures o.result.Ok? <==> git(ResetArgs(commit, mode)).success
    ensures o.result.Err? ==> o.result.error == "Git reset failed: " + git(ResetArgs(commit, mode)).stderr
  {
    var out := git(ResetArgs(commit, mode));
    Outcome(if out.success then Ok(()) else Err("Git reset failed: " + out.stderr), [ResetArgs(commit, mode)])
  }

  // ================================================================ branches

  /** `checkout_remote_branch`'s local name: what follows the first `/`, or the whole ref. */
  function LocalName(remoteRef: string): (n: string)
    ensures '/' !in remoteRef ==> n == remoteRef
    ensures '/' in remoteRef ==> |n| < |remoteRef| && EndsWith(remoteRef, "/" + n)
  {
    ContainsChar(remoteRef, '/');
    match IndexOf(remoteRef, "/")
    case None => remoteRef
    case Some(pos) =>
      assert remoteRef[pos..pos + 1] == "/";
      assert "/" + remoteRef[pos + 1..] == remoteRef[pos..];
      remoteRef[pos + 1..]
  }

  /** `origin/feature/x` checks out as `feature/x`: only the remote's name is dropped. */
  lemma LocalNameOfRef(remote: string, branch: string)
    requires '/' !in remote
    ensures LocalName(remote + "/" + branch) == branch
  {
    var s := remote + "/" + branch;
    IndexOfChar(s, '/', |remote|);
    assert s[|remote| + 1..] == branch;
  }

  function CheckoutTrackArgs(remoteRef: string): seq<string> {
    ["checkout", "-b", LocalName(remoteRef), "--track", remoteRef]
  }

  /** `checkout_remote_branch`: one `checkout -b <local> --track <remote ref>`. */
  function CheckoutRemoteBranch(git: Git, remoteRef: string): (o: Outcome<()>)
    ensures o.ran == [CheckoutTrackArgs(remoteRef)]
    ensures o.result.Ok? <==> git(CheckoutTrackArgs(remoteRef)).success
    ensures o.result.Err? ==> o.result.error == "Git checkout -b failed: " + git(CheckoutTrackArgs(remoteRef)).stderr
  {
    var out := git(CheckoutTrackArgs(remoteRef));
    Outcome(if out.success then Ok(()) else Err("Git checkout -b failed: " + out.stderr), [CheckoutTrackArgs(remoteRef)])
  }

  function BaseArg(from: Option<string>): seq<string> {
    match from
    case Some(b) => [b]
    case None => []
  }

  function CreateArgs(name: string, from: Option<string>, checkout: bool): seq<string> {
    (if checkout then ["checkout", "-b", name] else ["branch", name]) + BaseArg(from)
  }

  function PushNewArgs(name: string): seq<string> { ["push", "-u", "origin", name] }

  /**
   * `create_branch`: `checkout -b` or `branch`, from the given base if any, and then the push
   * when asked for, which runs only once the branch exists.
   */
  function CreateBranch(git: Git, name: string, from: Option<string>, pushToRemote: bool, checkout: bool): (o: Outcome<()>)
    ensures var create := git(CreateArgs(name, from, checkout));
      !create.success ==> o == Outcome(Err((if checkout then "Git checkout -b failed: " else "Git branch failed: ") + create.stderr),
                                       [CreateArgs(name, from, checkout)])
    ensures var create := git(CreateArgs(name, from, checkout));
      create.success ==> o.ran == [CreateArgs(name, from, checkout)] + (if pushToRemote then [PushNewArgs(name)] else [])
    ensures o.result.Ok? <==> git(CreateArgs(name, from, checkout)).success && (pushToRemote ==> git(PushNewArgs(name)).success)
    ensures git(CreateArgs(name, from, checkout)).success && pushToRemote && o.result.Err? ==>
      o.result.error == "Git push failed: " + git(PushNewArgs(name)).stderr
  {
    var args := CreateArgs(name, from, checkout);
    var create := git(args);
    if !create.success then
      Outcome(Err((if checkout then "Git checkout -b failed: " else "Git branch failed: ") + create.stderr), [args])
    else if !pushToRemote then Outcome(Ok(()), [args])
    else
      var push := git(PushNewArgs(name));
      Outcome(if push.success then Ok(()) else Err("Git push failed: " + push.stderr), [args, PushNewArgs(name)])
  }

  /**
   * `delete_branch`'s split of a remote branch name: at the first `/` when both sides are
   * non-empty, otherwise the whole name on `origin`.
   */
  function RemoteAndBranch(name: string): (r: (string, string))
    ensures (r.0 != "" && r.1 != "") || (r.0 == "origin" && r.1 == name)
  {
    match IndexOf(name, "/")
    case Some(i) =>
      if name[..i] != "" && name[i + 1..] != "" then (name[..i], name[i + 1..]) else ("origin", name)
    case None => ("origin", name)
  }

  /** `upstream/fix` deletes `fix` on `upstream`. */
  lemma RemoteAndBranchOfRef(remote: string, branch: string)
    requires remote != "" && branch != "" && '/' !in remote
    ensures RemoteAndBranch(remote + "/" + branch) == (remote, branch)
  {
    var s := remote + "/" + branch;
    IndexOfChar(s, '/', |remote|);
    assert s[..|remote|] == remote;
    assert s[|remote| + 1..] == branch;
  }

  /**
   * A name with no `/`, one starting with `/`, or one whose only `/` is its last character is
   * deleted on `origin` under its whole name.
   */
  lemma RemoteAndBranchDefault(name: string)
    requires '/' !in name || (|name| > 0 && name[0] == '/')
      || (|name| > 0 && name[|name| - 1] == '/' && '/' !in name[..|name| - 1])
    ensures RemoteAndBranch(name) == ("origin", name)
  {
    ContainsChar(name, '/');
    if '/' in name {
      if name[0] == '/' {
        IndexOfChar(name, '/', 0);
      } else {
        var k := |name| - 1;
        forall j | 0 <= j < k ensures name[j] != '/' {
          assert name[..k][j] == name[j];
        }
        IndexOfChar(name, '/', k);
        assert name[k + 1..] == "";
      }
    }
  }

  function DeleteArgs(name: string, force: bool, isRemote: bool): seq<string> {
    var n := Trim(name);
    if isRemote then ["push", RemoteAndBranch(n).0, "--delete", RemoteAndBranch(n).1]
    else ["branch", if force then "-D" else "-d", n]
  }

  /** `delete_branch`: the trimmed name is pushed away on its remote, or deleted locally. */
  function DeleteBranch(git: Git, name: string, force: bool, isRemote: bool): (o: Outcome<()>)
    ensures o.ran == [DeleteArgs(name, force, isRemote)]
    ensures o.result.Ok? <==> git(DeleteArgs(name, force, isRemote)).success
    ensures o.result.Err? ==>
      o.result.error == (if isRemote then "Failed to delete remote branch: " else "Failed to delete local branch: ")
                        + git(DeleteArgs(name, force, isRemote)).stderr
  {
    var args := DeleteArgs(name, force, isRemote);
    var out := git(args);
    if out.success then Outcome(Ok(()), [args])
    else Outcome(Err((if isRemote then "Failed to delete remote branch: " else "Failed to delete local branch: ") + out.stderr), [args])
  }

  // ================================================================ templates

  const GITIGNORE_TEMPLATES: seq<string> := ["node", "python", "rust", "go", "java"]

  const NODE_IGNORE := "node_modules/\ndist/\n.env\nnpm-debug.log*\nyarn-debug.log*\nyarn-error.log*\n"
  const PYTHON_IGNORE := "__pycache__/\n*.py[cod]\n.venv/\n.env\n"
  const RUST_IGNORE := "target/\n"
  const GO_IGNORE := "bin/\npkg/\n"
  const JAVA_IGNORE := "target/\n*.class\n*.jar\n"

  /** `gitignore_template`: the file for a known template name, trimmed and in any case. */
  function GitignoreTemplate(template: string): (r: Option<string>)
    ensures r.Some? <==> ToLower(Trim(template)) in GITIGNORE_TEMPLATES
    ensures r.Some? ==> |r.value| > 0 && r.value[|r.value| - 1] == '\n'
  {
    match ToLower(Trim(template))
    case "node" => Some(NODE_IGNORE)
    case "python" => Some(PYTHON_IGNORE)
    case "rust" => Some(RUST_IGNORE)
    case "go" => Some(GO_IGNORE)
    case "java" => Some(JAVA_IGNORE)
    case _ => None
  }

  /** Surrounding blanks and letter case do not change which template is chosen. */
  lemma GitignoreNormalized(template: string)
    ensures GitignoreTemplate(template) == GitignoreTemplate(ToLower(Trim(template)))
  {
    TrimToLower(Trim(template));
    TrimIdempotent(template);
    ToLowerIdempotent(Trim(template));
  }

  /** `license_text` has a text for exactly these identifiers (its body needs the clock). */
  predicate KnownLicense(id: string) {
    ToLower(Trim(id)) == "mit" || ToLower(Trim(id)) == "apache-2.0"
  }

  // ================================================================ init_repository

  /** What the filesystem says about the directory `init_repository` is given. */
  datatype RepoDir = RepoDir(
    pathExists: bool,
    isDir: bool,
    hasGit: bool,
    present: set<string>,
    unwritable: set<string>)

  /** The outcome, the git invocations, and the files written with their contents. */
  datatype InitRun = InitRun(result: Result<InitRepoResult, string>, ran: seq<seq<string>>, written: seq<(string, string)>)

  /** The description as the README uses it: trimmed, and absent when blank. */
  function Description(description: Option<string>): (d: Option<string>)
    ensures d.Some? ==> d.value != "" && IsTrimmed(d.value)
  {
    match description
    case Some(v) => TrimIsTrimmed(v); if Trim(v) != "" then Some(Trim(v)) else None
    case None => None
  }

  /** The README `init_repository` writes: a title line, then the description after a blank line. */
  function ReadmeText(name: string, description: Option<string>): string {
    "# " + name + (match Description(description) case Some(d) => "\n\n" + d case None => "") + "\n"
  }

  lemma TitleIsLine(name: string)
    requires IsLine(name)
    ensures IsLine("# " + name)
  {
    var h := "# " + name;
    forall k | 0 <= k < |h| ensures h[k] != '\n' {
      if k >= 2 { assert h[k] == name[k - 2]; }
    }
    if |name| > 0 { assert h[|h| - 1] == name[|name| - 1]; }
  }

  lemma ThreeLines(a: string, b: string, c: string)
    ensures Unlines([a, b, c]) == a + "\n" + b + "\n" + c + "\n"
  {
    assert [a, b, c][1..] == [b, c];
    assert [b, c][1..] == [c];
    assert Unlines([c]) == c + "\n";
    assert Unlines([b, c]) == b + "\n" + (c + "\n");
    assert Unlines([a, b, c]) == a + "\n" + (b + "\n" + (c + "\n"));
  }

  /** The lines of the README: `# <name>`, and a blank line and the description when there is one. */
  lemma ReadmeLines(name: string, description: Option<string>)
    requires IsLine(name)
    requires Description(description).Some? ==> IsLine(Description(description).value)
    ensures Lines(ReadmeText(name, description)) ==
      ["# " + name] + (match Description(description) case Some(d) => ["", d] case None => [])
  {
    var h := "# " + name;
    TitleIsLine(name);
    match Description(description)
    case Some(d) =>
      ThreeLines(h, "", d);
      assert ReadmeText(name, description) == Unlines([h, "", d]);
      LinesUnlines([h, "", d]);
    case None =>
      assert ReadmeText(name, description) == Unlines([h]);
      LinesUnlines([h]);
  }

  /** The message of the initial commit: the trimmed message, or the fixed default when blank. */
  function InitialMessage(message: Option<string>): (m: string)
    ensures m != ""
  {
    match message
    case Some(v) => if Trim(v) != "" then Trim(v) else "chore: init repo"
    case None => "chore: init repo"
  }

  /** The rejections that come before any git invocation, in the order they are checked. */
  function Rejection(o: InitRepoOptions, dir: RepoDir): Option<string> {
    if !dir.pathExists then Some("Repository path does not exist")
    else if !dir.isDir then Some("Repository path is not a directory")
    else if dir.hasGit then Some("Repository already initialized")
    else if Trim(o.name) == "" then Some("Repository name is required")
    else if Trim(o.defaultBranch) == "" then Some("Default branch is required")
    else None
  }

  /** The files the options ask for, in the order they are considered. */
  function Requested(o: InitRepoOptions): seq<string> {
    (if o.addReadme then ["README.md"] else [])
      + (if WantsIgnore(o) then [".gitignore"] else [])
      + (if WantsLicense(o) then ["LICENSE"] else [])
  }

  /** Created and skipped files so far, what was written, and the write that failed, if one did. */
  datatype Files = Files(created: seq<string>, skipped: seq<string>, written: seq<(string, string)>, failed: Option<string>)

  /** One optional file: skipped when it exists, otherwise written. */
  function AddFile(acc: Files, wanted: bool, file: string, content: string, dir: RepoDir): Files {
    if acc.failed.Some? || !wanted then acc
    else if file in dir.present then acc.(skipped := acc.skipped + [file])
    else if file in dir.unwritable then acc.(failed := Some("Failed to write " + file))
    else acc.(created := acc.created + [file], written := acc.written + [(file, content)])
  }

  /** A `.gitignore` is wanted when a template is named and known. */
  predicate WantsIgnore(o: InitRepoOptions) {
    o.gitignoreTemplate.Some? && GitignoreTemplate(o.gitignoreTemplate.value).Some?
  }

  function IgnoreText(o: InitRepoOptions): string {
    if WantsIgnore(o) then GitignoreTemplate(o.gitignoreTemplate.value).value else ""
  }

  predicate WantsLicense(o: InitRepoOptions) {
    o.license.Some? && KnownLicense(o.license.value)
  }

  /** The README, then the `.gitignore`, then the LICENSE: each skipped, written, or failing. */
  function AddFiles(o: InitRepoOptions, dir: RepoDir, licenseBody: string): Files {
    var readme := AddFile(Files([], [], [], None), o.addReadme, "README.md", ReadmeText(Trim(o.name), o.description), dir);
    var ignore := AddFile(readme, WantsIgnore(o), ".gitignore", IgnoreText(o), dir);
    AddFile(ignore, WantsLicense(o), "LICENSE", licenseBody, dir)
  }

  function InitArgs(branch: string): seq<string> { ["init", "--initial-branch", Trim(branch)] }

  function InitialCommitArgs(message: Option<string>): seq<string> {
    ["commit", "--allow-empty", "-m", InitialMessage(message)]
  }

  /**
   * `init_repository`. `licenseBody` is the license text of the day (it needs the clock and
   * the git user name); only whether the license identifier is known matters here.
   */
  function InitRepository(o: InitRepoOptions, dir: RepoDir, git: Git, licenseBody: string): InitRun {
    match Rejection(o, dir)
    case Some(e) => InitRun(Err(e), [], [])
    case None =>
      var init := InitArgs(o.defaultBranch);
      if !git(init).success then InitRun(Err("Git init failed: " + git(init).stderr), [init], [])
      else
        var files := AddFiles(o, dir, licenseBody);
        if files.failed.Some? then InitRun(Err(files.failed.value), [init], files.written)
        else if !o.initialCommit then InitRun(Ok(InitRepoResult(files.created, files.skipped)), [init], files.written)
        else if !git(["add", "-A"]).success then
          InitRun(Err("Git add failed: " + git(["add", "-A"]).stderr), [init, ["add", "-A"]], files.written)
        else
          var commit := InitialCommitArgs(o.commitMessage);
          InitRun(if git(commit).success then Ok(InitRepoResult(files.created, files.skipped))
                  else Err("Git commit failed: " + git(commit).stderr),
                  [init, ["add", "-A"], commit], files.written)
  }

  // ---------------------------------------------------------------- what it promises

  function Names(written: seq<(string, string)>): seq<string> {
    seq(|written|, k requires 0 <= k < |written| => written[k].0)
  }

  /** The accounting of the files asked for in `req` is right so far. */
  predicate Accounted(acc: Files, req: seq<string>, present: set<string>) {
    acc.failed.None? && acc.created == Filter(req, present, false) && acc.skipped == Filter(req, present, true)
      && Names(acc.written) == acc.created
  }

  /** A file step that does not fail extends the accounting by that file. */
  lemma AddFileAccounted(acc: Files, req: seq<string>, wanted: bool, file: string, content: string, dir: RepoDir)
    requires Accounted(acc, req, dir.present)
    requires AddFile(acc, wanted, file, content, dir).failed.None?
    ensures Accounted(AddFile(acc, wanted, file, content, dir), req + (if wanted then [file] else []), dir.present)
  {
    if !wanted {
      assert req + [] == req;
    } else if file in dir.present {
      AddPresentAccounted(acc, req, file, dir.present);
    } else {
      AddNewAccounted(acc, req, file, content, dir.present);
    }
  }

  lemma AddPresentAccounted(acc: Files, req: seq<string>, file: string, present: set<string>)
    requires Accounted(acc, req, present) && file in present
    ensures Accounted(acc.(skipped := acc.skipped + [file]), req + [file], present)
  {
    FilterAppend(req, [file], present, false);
    FilterAppend(req, [file], present, true);
    assert Filter([file], present, true) == [file];
    assert Filter([file], present, false) == [];
  }

  lemma AddNewAccounted(acc: Files, req: seq<string>, file: string, content: string, present: set<string>)
    requires Accounted(acc, req, present) && file !in present
    ensures Accounted(acc.(created := acc.created + [file], written := acc.written + [(file, content)]), req + [file], present)
  {
    FilterAppend(req, [file], present, false);
    FilterAppend(req, [file], present, true);
    assert Filter([file], present, true) == [];
    assert Filter([file], present, false) == [file];
    NamesSnoc(acc.written, file, content);
  }

  lemma NamesSnoc(w: seq<(string, string)>, file: string, content: string)
    ensures Names(w + [(file, content)]) == Names(w) + [file]
  {
    assert |Names(w + [(file, content)])| == |Names(w) + [file]|;
  }

  /** A failure stays: once a write failed, the later steps change nothing. */
  lemma AddFileFailed(acc: Files, wanted: bool, file: string, content: string, dir: RepoDir)
    ensures acc.failed.Some? ==> AddFile(acc, wanted, file, content, dir) == acc
  {
  }

  /**
   * After a successful file step, every requested file was either created (and written) or
   * skipped because it existed, in the order README.md, .gitignore, LICENSE.
   */
  lemma AddFilesSorts(o: InitRepoOptions, dir: RepoDir, licenseBody: string)
    requires AddFiles(o, dir, licenseBody).failed.None?
    ensures Accounted(AddFiles(o, dir, licenseBody), Requested(o), dir.present)
  {
    var text := ReadmeText(Trim(o.name), o.description);
    var start := Files([], [], [], None);
    var readme := AddFile(start, o.addReadme, "README.md", text, dir);
    var ignore := AddFile(readme, WantsIgnore(o), ".gitignore", IgnoreText(o), dir);
    var r1: seq<string> := if o.addReadme then ["README.md"] else [];
    var r2: seq<string> := if WantsIgnore(o) then [".gitignore"] else [];
    var r3: seq<string> := if WantsLicense(o) then ["LICENSE"] else [];
    AddFileFailed(readme, WantsIgnore(o), ".gitignore", IgnoreText(o), dir);
    AddFileFailed(ignore, WantsLicense(o), "LICENSE", licenseBody, dir);
    assert Names([]) == [];
    assert Accounted(start, [], dir.present);
    AddFileAccounted(start, [], o.addReadme, "README.md", text, dir);
    assert [] + r1 == r1;
    AddFileAccounted(readme, r1, WantsIgnore(o), ".gitignore", IgnoreText(o), dir);
    AddFileAccounted(ignore, r1 + r2, WantsLicense(o), "LICENSE", licenseBody, dir);
  }

  /** The README written is the one built from the trimmed name and the description. */
  lemma ReadmeWritten(o: InitRepoOptions, dir: RepoDir, licenseBody: string)
    requires AddFiles(o, dir, licenseBody).failed.None?
    requires o.addReadme && "README.md" !in dir.present
    ensures |AddFiles(o, dir, licenseBody).written| > 0
    ensures AddFiles(o, dir, licenseBody).written[0] == ("README.md", ReadmeText(Trim(o.name), o.description))
  {
    var readme := AddFile(Files([], [], [], None), o.addReadme, "README.md", ReadmeText(Trim(o.name), o.description), dir);
    var ignore := AddFile(readme, WantsIgnore(o), ".gitignore", IgnoreText(o), dir);
    AddFileFailed(readme, WantsIgnore(o), ".gitignore", IgnoreText(o), dir);
    AddFileFailed(ignore, WantsLicense(o), "LICENSE", licenseBody, dir);
    assert readme.written == [("README.md", ReadmeText(Trim(o.name), o.description))];
    assert ignore.written[0] == readme.written[0];
  }

  /** The files of `fs` that are (or are not) in `present`, in order. */
  function Filter(fs: seq<string>, present: set<string>, inside: bool): (r: seq<string>)
    ensures forall x :: x in r <==> x in fs && (x in present <==> inside)
  {
    if fs == [] then []
    else (if (fs[0] in present) == inside then [fs[0]] else []) + Filter(fs[1..], present, inside)
  }

  lemma {:induction false} FilterAppend(a: seq<string>, b: seq<string>, present: set<string>, inside: bool)
    ensures Filter(a + b, present, inside) == Filter(a, present, inside) + Filter(b, present, inside)
    decreases |a|
  {
    if a != [] {
      assert (a + b)[1..] == a[1..] + b;
      FilterAppend(a[1..], b, present, inside);
    } else {
      assert a + b == b;
    }
  }

  /**
   * `init_repository`'s validation: each rejection, checked in this order, happens before
   * any git invocation and before any file is written.
   */
  lemma InitRejections(o: InitRepoOptions, dir: RepoDir, git: Git, licenseBody: string)
    ensures var r := InitRepository(o, dir, git, licenseBody);
      Rejection(o, dir).Some? ==> r.ran == [] && r.written == [] && r.result == Err(Rejection(o, dir).value)
    ensures !dir.pathExists ==> Rejection(o, dir) == Some("Repository path does not exist")
    ensures dir.pathExists && !dir.isDir ==> Rejection(o, dir) == Some("Repository path is not a directory")
    ensures dir.pathExists && dir.isDir && dir.hasGit ==> Rejection(o, dir) == Some("Repository already initialized")
    ensures dir.pathExists && dir.isDir && !dir.hasGit && Trim(o.name) == "" ==>
      Rejection(o, dir) == Some("Repository name is required")
    ensures dir.pathExists && dir.isDir && !dir.hasGit && Trim(o.name) != "" && Trim(o.defaultBranch) == "" ==>
      Rejection(o, dir) == Some("Default branch is required")
    ensures Rejection(o, dir).None? <==>
      dir.pathExists && dir.isDir && !dir.hasGit && Trim(o.name) != "" && Trim(o.defaultBranch) != ""
  {
  }

  /**
   * A successful `init_repository` ran `git init` on the trimmed branch first, reported every
   * requested file as created or skipped (skipped exactly when it was present), wrote exactly
   * the created files, and committed only when asked to.
   */
  lemma InitSuccess(o: InitRepoOptions, dir: RepoDir, git: Git, licenseBody: string)
    requires InitRepository(o, dir, git, licenseBody).result.Ok?
    ensures var r := InitRepository(o, dir, git, licenseBody);
      Rejection(o, dir).None? &&
      r.ran == [InitArgs(o.defaultBranch)] + (if o.initialCommit then [["add", "-A"], InitialCommitArgs(o.commitMessage)] else []) &&
      r.result.value.createdFiles == Filter(Requested(o), dir.present, false) &&
      r.result.value.skippedFiles == Filter(Requested(o), dir.present, true) &&
      Names(r.written) == r.result.value.createdFiles
  {
    AddFilesSorts(o, dir, licenseBody);
  }
}
