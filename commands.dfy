/**
 * The command layer of src-tauri/src/commands/mod.rs: the one repository slot every command
 * reads, how selecting or initialising a repository rebinds it, and the label and address of a
 * worktree's window. Each repository's git is `repos(path)`, the oracle for that directory.
 */
module Commands {
  import opened Wrappers
  import opened Strings
  import opened GitTypes
  import GitRepository
  import GitMerge
  import Config

  /** Git as it answers in each directory. */
  type Repos = string -> Git

  datatype RepoSelectionResult = RepoSelectionResult(isGit: bool, path: string)

  const NO_REPO := "No repository selected"
  const PATH_MISSING := "Repository path does not exist"
  const PATH_NOT_DIR := "Repository path is not a directory"

  /** `AppState`: a single slot for the whole application, whatever window or tab asks. */
  class AppState {
    var currentRepo: Option<string>

    constructor()
      ensures currentRepo.None?
    {
      currentRepo := None;
    }

    /** `get_current_repo_path`, and the guard every repository command starts with. */
    function RepoPath(): (r: Result<string, string>)
      reads this
      ensures r.Ok? <==> currentRepo.Some?
      ensures r.Ok? ==> r.value == currentRepo.value
      ensures r.Err? ==> r.error == NO_REPO
    {
      match currentRepo
      case Some(p) => Ok(p)
      case None => Err(NO_REPO)
    }

    /**
     * `set_repository`: an absent path or a file is refused before anything changes; otherwise
     * the slot is bound to a path with `.git` and cleared for one without, and only then is the
     * path recorded in the configuration, whose failure is reported with the slot already set.
     */
    method SetRepository(path: string, dir: GitRepository.RepoDir, config: Config.ConfigStore)
      returns (r: Result<RepoSelectionResult, string>)
      modifies this, config
      ensures !dir.pathExists || !dir.isDir ==>
        currentRepo == old(currentRepo) && config.configFile == old(config.configFile)
        && r == Err(if !dir.pathExists then PATH_MISSING else PATH_NOT_DIR)
      ensures dir.pathExists && dir.isDir ==> currentRepo == (if dir.hasGit then Some(path) else None)
      ensures dir.pathExists && dir.isDir ==>
        (r.Ok? <==> Config.LoadConfigRaw(old(config.configFile)).Ok? && config.writable)
      ensures r.Ok? ==> r.value == RepoSelectionResult(dir.hasGit, path)
      ensures r.Ok? ==>
        config.configFile == Config.Stored(Config.LoadConfigRaw(old(config.configFile)).value.(lastRepoPath := Some(path)))
      ensures config.sessionOverride == old(config.sessionOverride) && config.secretsFile == old(config.secretsFile)
      ensures config.writable == old(config.writable)
    {
      if !dir.pathExists {
        return Err(PATH_MISSING);
      }
      if !dir.isDir {
        return Err(PATH_NOT_DIR);
      }
      if dir.hasGit {
        currentRepo := Some(path);
      } else {
        currentRepo := None;
      }
      var saved := config.UpdateLastRepo(path);
      if saved.Err? {
        return Err(saved.error);
      }
      r := Ok(RepoSelectionResult(dir.hasGit, path));
    }

    /**
     * `init_repository_cmd`: the slot is bound only once the repository has been created, and
     * stays bound even if recording the path in the configuration then fails.
     */
    method InitRepositoryCmd(o: InitRepoOptions, dir: GitRepository.RepoDir, repos: Repos, licenseBody: string,
                             config: Config.ConfigStore)
      returns (r: Result<InitRepoResult, string>)
      modifies this, config
      ensures var run := GitRepository.InitRepository(o, dir, repos(o.path), licenseBody);
        run.result.Err? ==> r == Err(run.result.error) && currentRepo == old(currentRepo)
                            && config.configFile == old(config.configFile)
      ensures var run := GitRepository.InitRepository(o, dir, repos(o.path), licenseBody);
        run.result.Ok? ==> currentRepo == Some(o.path)
      ensures var run := GitRepository.InitRepository(o, dir, repos(o.path), licenseBody);
        r.Ok? <==> run.result.Ok? && Config.LoadConfigRaw(old(config.configFile)).Ok? && config.writable
      ensures r.Ok? ==> r == GitRepository.InitRepository(o, dir, repos(o.path), licenseBody).result
      ensures config.sessionOverride == old(config.sessionOverride) && config.secretsFile == old(config.secretsFile)
      ensures config.writable == old(config.writable)
    {
      var run := GitRepository.InitRepository(o, dir, repos(o.path), licenseBody);
      if run.result.Err? {
        return Err(run.result.error);
      }
      currentRepo := Some(o.path);
      var saved := config.UpdateLastRepo(o.path);
      if saved.Err? {
        return Err(saved.error);
      }
      r := run.result;
    }

    /** `create_branch_cmd`: guarded by the slot; a missing `checkout` flag means check out. */
    function CreateBranchCmd(repos: Repos, name: string, from: Option<string>, pushToRemote: bool,
                             checkout: Option<bool>): (o: Outcome<()>)
      reads this
      ensures currentRepo.None? ==> o == Outcome(Err(NO_REPO), [])
      ensures currentRepo.Some? && checkout.None? ==>
        o == GitRepository.CreateBranch(repos(currentRepo.value), name, from, pushToRemote, true)
      ensures currentRepo.Some? && checkout.Some? ==>
        o == GitRepository.CreateBranch(repos(currentRepo.value), name, from, pushToRemote, checkout.value)
    {
      match RepoPath()
      case Err(e) => Outcome(Err(e), [])
      case Ok(p) => GitRepository.CreateBranch(repos(p), name, from, pushToRemote, checkout.GetOr(true))
    }

    /** `merge_branch_cmd`: guarded by the slot, then the merge in the bound repository. */
    function MergeBranchCmd(repos: Repos, source: string, message: Option<string>, mergeHead: bool): (o: Outcome<MergeResult>)
      reads this
      ensures currentRepo.None? ==> o == Outcome(Err(NO_REPO), [])
      ensures currentRepo.Some? ==> o == GitMerge.MergeBranch(repos(currentRepo.value), source, message, mergeHead)
    {
      match RepoPath()
      case Err(e) => Outcome(Err(e), [])
      case Ok(p) => GitMerge.MergeBranch(repos(p), source, message, mergeHead)
    }
  }

  /** A repository command run with no repository bound never reaches git. */
  lemma UnboundRunsNothing(s: AppState, repos: Repos, name: string, from: Option<string>, push: bool,
                           checkout: Option<bool>, source: string, message: Option<string>, mergeHead: bool)
    requires s.currentRepo.None?
    ensures s.RepoPath() == Err(NO_REPO)
    ensures s.CreateBranchCmd(repos, name, from, push, checkout).ran == []
    ensures s.MergeBranchCmd(repos, source, message, mergeHead).ran == []
    ensures s.CreateBranchCmd(repos, name, from, push, checkout).result == Err(NO_REPO)
  {
  }

  // ---------------------------------------------------------------- worktree windows

  predicate LabelChar(c: char) {
    IsAsciiAlphanumeric(c) || c == '-'
  }

  /** The characters of `s` a window label may hold, in order. */
  function LabelChars(s: string): (r: string)
    ensures |r| <= |s|
    ensures forall i :: 0 <= i < |r| ==> LabelChar(r[i])
    ensures (forall i :: 0 <= i < |s| ==> LabelChar(s[i])) ==> r == s
    decreases |s|
  {
    if s == [] then ""
    else (if LabelChar(s[0]) then [s[0]] else "") + LabelChars(s[1..])
  }

  /** Filtering works piece by piece. */
  lemma {:induction false} LabelCharsAppend(a: string, b: string)
    ensures LabelChars(a + b) == LabelChars(a) + LabelChars(b)
    decreases |a|
  {
    if a != [] {
      assert (a + b)[1..] == a[1..] + b;
      LabelCharsAppend(a[1..], b);
    } else {
      assert a + b == b;
    }
  }

  const LABEL_PREFIX := "worktree-"

  /** The window label: the prefix and at most 20 of the path's label characters, the first ones. */
  function WindowLabel(path: string): (r: string)
    ensures StartsWith(r, LABEL_PREFIX) && |r| <= |LABEL_PREFIX| + 20
    ensures |r| == |LABEL_PREFIX| + (if |LabelChars(path)| < 20 then |LabelChars(path)| else 20)
    ensures LabelChars(path)[..|r| - |LABEL_PREFIX|] == r[|LABEL_PREFIX|..]
    ensures forall i :: |LABEL_PREFIX| <= i < |r| ==> LabelChar(r[i])
  {
    var chars := LabelChars(path);
    var r := LABEL_PREFIX + chars[..if |chars| < 20 then |chars| else 20];
    assert r[|LABEL_PREFIX|..] == chars[..|r| - |LABEL_PREFIX|];
    r
  }

  /**
   * Paths that differ only in characters the label drops share a window: opening the second
   * (say `/work/a/-b` after `/work/a-b`) focuses the first.
   */
  lemma LabelIgnores(a: string, c: char, b: string)
    requires !LabelChar(c)
    ensures WindowLabel(a + [c] + b) == WindowLabel(a + b)
  {
    CharsIgnore(a, c, b);
  }

  lemma CharsIgnore(a: string, c: char, b: string)
    requires !LabelChar(c)
    ensures LabelChars(a + [c] + b) == LabelChars(a + b)
  {
    LabelCharsAppend(a + [c], b);
    LabelCharsAppend(a, [c]);
    LabelCharsAppend(a, b);
    assert LabelChars([c]) == "" by {
      assert [c][1..] == "";
    }
    assert LabelChars(a) + "" == LabelChars(a);
  }

  /** One character as the URL carries it. */
  function EncodeChar(c: char): string {
    if c == '%' then "%25" else if c == ' ' then "%20" else if c == '/' then "%2F" else [c]
  }

  /** The escaping in one pass, character by character. */
  function EncodeChars(s: string): string
    decreases |s|
  {
    if s == [] then "" else EncodeChar(s[0]) + EncodeChars(s[1..])
  }

  /** The path as `open_worktree_window_cmd` puts it in the URL: `%`, then space, then `/` replaced. */
  function EncodePath(path: string): (r: string)
    ensures r == EncodeChars(path)
    ensures ' ' !in r && '/' !in r
  {
    EncodeInOnePass(path);
    EncodeCharsClean(path);
    ReplaceChar(ReplaceChar(ReplaceChar(path, '%', "%25"), ' ', "%20"), '/', "%2F")
  }

  lemma {:induction false} ReplaceCharAppend(a: string, b: string, c: char, r: string)
    ensures ReplaceChar(a + b, c, r) == ReplaceChar(a, c, r) + ReplaceChar(b, c, r)
    decreases |a|
  {
    if a != [] {
      assert (a + b)[1..] == a[1..] + b;
      ReplaceCharAppend(a[1..], b, c, r);
    } else {
      assert a + b == b;
    }
  }

  lemma ReplaceCharAbsent(s: string, c: char, r: string)
    requires c !in s
    ensures ReplaceChar(s, c, r) == s
  {
  }

  /** The three replacements in sequence are the one-pass escaping, because `%` goes first. */
  lemma {:induction false} EncodeInOnePass(s: string)
    ensures ReplaceChar(ReplaceChar(ReplaceChar(s, '%', "%25"), ' ', "%20"), '/', "%2F") == EncodeChars(s)
    decreases |s|
  {
    if s != [] {
      var head := [s[0]];
      assert s == head + s[1..];
      ReplaceCharAppend(head, s[1..], '%', "%25");
      var a := ReplaceChar(head, '%', "%25");
      var a2 := ReplaceChar(s[1..], '%', "%25");
      ReplaceCharAppend(a, a2, ' ', "%20");
      var b := ReplaceChar(a, ' ', "%20");
      var b2 := ReplaceChar(a2, ' ', "%20");
      ReplaceCharAppend(b, b2, '/', "%2F");
      EncodeInOnePass(s[1..]);
      assert ReplaceChar(b, '/', "%2F") == EncodeChar(s[0]) by {
        if s[0] == '%' {
          assert a == "%25";
          ReplaceCharAbsent("%25", ' ', "%20");
          ReplaceCharAbsent("%25", '/', "%2F");
        } else if s[0] == ' ' {
          assert a == " ";
          assert b == "%20";
          ReplaceCharAbsent("%20", '/', "%2F");
        } else if s[0] == '/' {
          assert a == "/";
          assert b == "/";
        } else {
          assert a == head && b == head;
        }
      }
    }
  }

  lemma {:induction false} EncodeCharsClean(s: string)
    ensures ' ' !in EncodeChars(s) && '/' !in EncodeChars(s)
    decreases |s|
  {
    if s != [] {
      EncodeCharsClean(s[1..]);
      assert EncodeChars(s) == EncodeChar(s[0]) + EncodeChars(s[1..]);
    }
  }

  /** Reading the escapes back: `%25`, `%20` and `%2F` are one character each, the rest as it is. */
  function DecodePath(s: string): string
    decreases |s|
  {
    if s == [] then ""
    else if |s| >= 3 && s[0] == '%' && s[1..3] == "25" then "%" + DecodePath(s[3..])
    else if |s| >= 3 && s[0] == '%' && s[1..3] == "20" then " " + DecodePath(s[3..])
    else if |s| >= 3 && s[0] == '%' && s[1..3] == "2F" then "/" + DecodePath(s[3..])
    else [s[0]] + DecodePath(s[1..])
  }

  lemma DecodeEscaped(c: char, rest: string)
    ensures DecodePath(EncodeChar(c) + rest) == [c] + DecodePath(rest)
  {
    var s := EncodeChar(c) + rest;
    if c == '%' || c == ' ' || c == '/' {
      assert s[1..3] == EncodeChar(c)[1..3];
      assert s[3..] == rest;
    } else {
      assert s[0] == c;
      assert s[1..] == rest;
    }
  }

  /** The worktree's page recovers exactly the path it was opened for. */
  lemma {:induction false} EncodeRoundTrip(path: string)
    ensures DecodePath(EncodePath(path)) == path
    decreases |path|
  {
    if path != [] {
      EncodeRoundTrip(path[1..]);
      assert EncodeChars(path) == EncodeChar(path[0]) + EncodeChars(path[1..]);
      DecodeEscaped(path[0], EncodeChars(path[1..]));
      assert path == [path[0]] + path[1..];
    }
  }

  /** Escaping `%` last would escape the escapes: a space would travel as `%2520`. */
  lemma PercentFirst()
    ensures EncodePath(" ") == "%20"
    ensures ReplaceChar(ReplaceChar(" ", ' ', "%20"), '%', "%25") == "%2520"
  {
    assert EncodeChars(" ") == EncodeChar(' ') + EncodeChars("");
    var once := ReplaceChar(" ", ' ', "%20");
    assert once == "%20";
    assert "%20" == "%" + "20";
    ReplaceCharAppend("%", "20", '%', "%25");
    ReplaceCharAbsent("20", '%', "%25");
  }

  /** What `open_worktree_window_cmd` does: focus the window already open under that label, or open one. */
  datatype WindowAction = Focus(window: string) | Open(window: string, url: string, title: string)

  function OpenWorktreeWindow(path: string, branch: string, openLabels: set<string>): (a: WindowAction)
    ensures a.window == WindowLabel(path)
    ensures a.Focus? <==> WindowLabel(path) in openLabels
    ensures a.Open? ==> a.url == "index.html?repo=" + EncodePath(path) && a.title == "EverydayGit - " + branch
  {
    var w := WindowLabel(path);
    if w in openLabels then Focus(w)
    else Open(w, "index.html?repo=" + EncodePath(path), "EverydayGit - " + branch)
  }
}
