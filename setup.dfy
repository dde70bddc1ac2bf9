/**
 * The first-run checks of src-tauri/src/setup/mod.rs: whether git and the GitHub CLI run, which
 * versions they report, and whether the CLI is signed in. Starting a process is a `Spawn` value:
 * either the program ran and produced its output, or it could not be started.
 */
module Setup {
  import opened Wrappers
  import opened Strings
  import opened GitTypes

  datatype Spawn = Ran(output: ProcessOutput) | SpawnFailed(message: string)

  datatype RequirementStatus = RequirementStatus(name: string, installed: bool, version: Option<string>, error: Option<string>)

  datatype SetupStatus = SetupStatus(git: RequirementStatus, gh: RequirementStatus, ghAuth: RequirementStatus, allPassed: bool)

  const GIT_PREFIX := "git version "
  const GH_PREFIX := "gh version "

  /** `parse_git_version`: the trimmed first line must start with `git version `; the rest, trimmed, is the version. */
  function ParseGitVersion(output: string): (r: Option<string>)
    ensures Lines(output) == [] ==> r.None?
    ensures Lines(output) != [] ==> (r.Some? <==> StartsWith(Trim(Lines(output)[0]), GIT_PREFIX))
    ensures r.Some? ==> IsTrimmed(r.value) && Trim(Trim(Lines(output)[0])[|GIT_PREFIX|..]) == r.value
  {
    var ls := Lines(output);
    if ls == [] then None
    else
      var line := Trim(ls[0]);
      if StartsWith(line, GIT_PREFIX) then
        TrimIsTrimmed(line[|GIT_PREFIX|..]);
        Some(Trim(line[|GIT_PREFIX|..]))
      else None
  }

  /** No output, or a first line without the prefix, has no version. */
  lemma GitVersionNone()
    ensures ParseGitVersion("") == None
    ensures ParseGitVersion("git\n") == None
  {
    assert Lines("") == [];
    BareGitLine();
  }

  lemma BareGitLine()
    ensures ParseGitVersion("git\n") == None
  {
    assert "git\n" == "git" + "\n" + "";
    LinesFirst("git", "");
    assert Lines("git\n") == ["git"];
    assert Trim("git") == "git" by { TrimOfTrimmed("git"); }
    assert !StartsWith("git", GIT_PREFIX) by { assert |"git"| < |GIT_PREFIX|; }
  }

  /** A text without blanks has nothing for `trim` to remove and no line break. */
  lemma WordIsLine(w: string)
    requires NoWhitespace(w)
    ensures IsTrimmed(w) && IsLine(w)
  {
    assert forall i :: 0 <= i < |w| ==> w[i] != '\n';
  }

  /** `git --version` as git prints it reads back the version it names. */
  lemma GitVersionRoundTrip(v: string, rest: string)
    requires |v| > 0 && NoWhitespace(v)
    ensures ParseGitVersion(GIT_PREFIX + v + "\n" + rest) == Some(v)
  {
    var line := GIT_PREFIX + v;
    WordIsLine(v);
    assert '\n' !in line by {
      forall i | 0 <= i < |line| ensures line[i] != '\n' {
        if i >= |GIT_PREFIX| { assert line[i] == v[i - |GIT_PREFIX|]; }
      }
    }
    LinesFirst(line, rest);
    assert line[|line| - 1] == v[|v| - 1];
    assert StripCR(line) == line;
    TrimOfTrimmed(line);
    assert line[..|GIT_PREFIX|] == GIT_PREFIX;
    assert line[|GIT_PREFIX|..] == v;
    TrimOfTrimmed(v);
  }

  /** `parse_gh_version`: a first line without the prefix is returned whole; otherwise its third word. */
  function ParseGhVersion(output: string): (r: Option<string>)
    ensures Lines(output) == [] ==> r.None?
    ensures Lines(output) != [] && !StartsWith(Trim(Lines(output)[0]), GH_PREFIX) ==> r == Some(Trim(Lines(output)[0]))
    ensures Lines(output) != [] && StartsWith(Trim(Lines(output)[0]), GH_PREFIX) ==>
      |SplitWhitespace(Trim(Lines(output)[0]))| > 2 && r == Some(Trim(SplitWhitespace(Trim(Lines(output)[0]))[2]))
  {
    var ls := Lines(output);
    if ls == [] then None
    else
      var line := Trim(ls[0]);
      if !StartsWith(line, GH_PREFIX) then Some(line)
      else
        TrimIsTrimmed(ls[0]);
        GhWords(line);
        var words := SplitWhitespace(line);
        if |words| > 2 then Some(Trim(words[2])) else None
  }

  /** A text ending in a non-blank has at least one word. */
  lemma {:induction false} SomeWord(x: string)
    requires |x| > 0 && !IsWhitespace(x[|x| - 1])
    ensures SplitWhitespace(x) != []
    decreases |x|
  {
    if IsWhitespace(x[0]) {
      assert x[1..][|x[1..]| - 1] == x[|x| - 1];
      SomeWord(x[1..]);
    }
  }

  /** Leading blanks are not words. */
  lemma SplitWhitespaceBlank(x: string)
    ensures SplitWhitespace(" " + x) == SplitWhitespace(x)
  {
    assert (" " + x)[1..] == x;
  }

  /** The words of a line with the `gh version ` prefix: `gh`, `version`, then the rest's. */
  lemma GhPrefixWords(x: string)
    ensures SplitWhitespace(GH_PREFIX + x) == ["gh", "version"] + SplitWhitespace(x)
  {
    assert GH_PREFIX == "gh" + " " + "version" + " ";
    assert NoWhitespace("gh") && NoWhitespace("version");
    TwoWords("gh", "version", x);
  }

  lemma TwoWords(a: string, b: string, x: string)
    requires |a| > 0 && |b| > 0 && NoWhitespace(a) && NoWhitespace(b)
    ensures SplitWhitespace(a + " " + b + " " + x) == [a, b] + SplitWhitespace(x)
  {
    assert a + " " + b + " " + x == a + (" " + (b + (" " + x)));
    SplitWhitespaceWord(a, " " + (b + (" " + x)));
    SplitWhitespaceBlank(b + (" " + x));
    SplitWhitespaceWord(b, " " + x);
    SplitWhitespaceBlank(x);
  }

  /** A trimmed line with the prefix always has a third word, so the parse never comes back empty. */
  lemma GhWords(line: string)
    requires IsTrimmed(line) && StartsWith(line, GH_PREFIX)
    ensures |SplitWhitespace(line)| > 2
  {
    var x := line[|GH_PREFIX|..];
    assert line == GH_PREFIX + x;
    assert |x| > 0 && x[|x| - 1] == line[|line| - 1];
    GhPrefixWords(x);
    SomeWord(x);
  }

  /** Only an empty output has no version: a first line always gives one. */
  lemma GhVersionNone(output: string)
    ensures ParseGhVersion(output).None? <==> Lines(output) == []
  {
  }

  /** The banner line `gh --version` prints: a single trimmed line whose third word is the version. */
  lemma GhBanner(v: string, date: string)
    requires |v| > 0 && NoWhitespace(v) && NoWhitespace(date)
    ensures var line := GH_PREFIX + v + " (" + date + ")";
      IsLine(line) && IsTrimmed(line) && StartsWith(line, GH_PREFIX)
      && |SplitWhitespace(line)| > 2 && SplitWhitespace(line)[2] == v
  {
    var tail := " (" + date + ")";
    assert GH_PREFIX + v + " (" + date + ")" == GH_PREFIX + v + tail;
    BannerShape(v, tail);
    assert tail[0] == ' ' && tail[|tail| - 1] == ')';
    WordIsLine(date);
    assert '\n' !in tail;
    BannerWords(v, tail);
  }

  /** The banner is one line without blanks at its ends when the text after the version is. */
  lemma BannerShape(v: string, tail: string)
    requires |v| > 0 && NoWhitespace(v)
    requires '\n' !in tail && |tail| > 0 && !IsWhitespace(tail[|tail| - 1]) && tail[|tail| - 1] != '\r'
    ensures var line := GH_PREFIX + v + tail;
      IsLine(line) && IsTrimmed(line) && StartsWith(line, GH_PREFIX)
  {
    var line := GH_PREFIX + v + tail;
    WordIsLine(v);
    assert '\n' !in GH_PREFIX;
    assert line[|line| - 1] == tail[|tail| - 1] && line[0] == 'g';
    assert line[..|GH_PREFIX|] == GH_PREFIX;
  }

  /** The third word of the banner is the version. */
  lemma BannerWords(v: string, tail: string)
    requires |v| > 0 && NoWhitespace(v) && |tail| > 0 && IsWhitespace(tail[0])
    ensures SplitWhitespace(GH_PREFIX + v + tail) == ["gh", "version", v] + SplitWhitespace(tail)
  {
    assert GH_PREFIX + v + tail == GH_PREFIX + (v + tail);
    GhPrefixWords(v + tail);
    SplitWhitespaceWord(v, tail);
  }

  /** `gh --version` as the CLI prints it reads back the version it names. */
  lemma GhVersionRoundTrip(v: string, date: string, rest: string)
    requires |v| > 0 && NoWhitespace(v) && NoWhitespace(date)
    ensures ParseGhVersion(GH_PREFIX + v + " (" + date + ")\n" + rest) == Some(v)
  {
    var line := GH_PREFIX + v + " (" + date + ")";
    GhBanner(v, date);
    assert GH_PREFIX + v + " (" + date + ")\n" + rest == line + "\n" + rest;
    LinesFirst(line, rest);
    assert StripCR(line) == line;
    TrimOfTrimmed(line);
    TrimOfTrimmed(v);
  }

  /** `output_error_message`: the trimmed error output, or the trimmed standard output when that is blank. */
  function OutputErrorMessage(out: ProcessOutput): (r: string)
    ensures Trim(out.stderr) != "" ==> r == Trim(out.stderr)
    ensures Trim(out.stderr) == "" ==> r == Trim(out.stdout)
    ensures IsTrimmed(r)
  {
    TrimIsTrimmed(out.stderr);
    TrimIsTrimmed(out.stdout);
    var e := Trim(out.stderr);
    if e != "" then e else Trim(out.stdout)
  }

  /**
   * The record all three checks build: installed exactly when the program ran and exited with
   * success; then the version found, otherwise the reason as the error.
   */
  function Requirement(name: string, spawn: Spawn, version: Option<string>): (r: RequirementStatus)
    ensures r.name == name
    ensures r.installed <==> spawn.Ran? && spawn.output.success
    ensures r.installed ==> r.version == version && r.error.None?
    ensures !r.installed ==> r.version.None? && r.error.Some?
    ensures spawn.SpawnFailed? ==> r.error == Some(spawn.message)
    ensures spawn.Ran? && !spawn.output.success ==> r.error == Some(OutputErrorMessage(spawn.output))
  {
    match spawn
    case Ran(out) =>
      if out.success then RequirementStatus(name, true, version, None)
      else RequirementStatus(name, false, None, Some(OutputErrorMessage(out)))
    case SpawnFailed(m) => RequirementStatus(name, false, None, Some(m))
  }

  /** The version a successful `--version` run reports: parsed, or else its whole trimmed output. */
  function ReportedVersion(stdout: string, parsed: Option<string>): (r: string)
    ensures parsed.Some? ==> r == parsed.value
    ensures parsed.None? ==> r == Trim(stdout)
  {
    parsed.GetOr(Trim(stdout))
  }

  /** `check_git_installed`: `git --version`. */
  function CheckGitInstalled(spawn: Spawn): (r: RequirementStatus)
    ensures r == Requirement("Git", spawn, r.version)
    ensures r.installed ==> r.version == Some(ReportedVersion(spawn.output.stdout, ParseGitVersion(spawn.output.stdout)))
  {
    Requirement("Git", spawn,
                if spawn.Ran? then Some(ReportedVersion(spawn.output.stdout, ParseGitVersion(spawn.output.stdout))) else None)
  }

  /** `check_gh_installed`: `gh --version`. */
  function CheckGhInstalled(spawn: Spawn): (r: RequirementStatus)
    ensures r == Requirement("GitHub CLI", spawn, r.version)
    ensures r.installed ==> r.version == Some(ReportedVersion(spawn.output.stdout, ParseGhVersion(spawn.output.stdout)))
  {
    Requirement("GitHub CLI", spawn,
                if spawn.Ran? then Some(ReportedVersion(spawn.output.stdout, ParseGhVersion(spawn.output.stdout))) else None)
  }

  /** `check_gh_authenticated`: `gh auth status`, which reports no version. */
  function CheckGhAuthenticated(spawn: Spawn): (r: RequirementStatus)
    ensures r == Requirement("GitHub Authentication", spawn, None)
    ensures r.version.None?
  {
    Requirement("GitHub Authentication", spawn, None)
  }

  /** A git that prints its usual banner is reported installed with exactly the version in it. */
  lemma GitInstalledVersion(v: string, rest: string, stderr: string)
    requires |v| > 0 && NoWhitespace(v)
    ensures CheckGitInstalled(Ran(ProcessOutput(true, GIT_PREFIX + v + "\n" + rest, stderr))) ==
      RequirementStatus("Git", true, Some(v), None)
  {
    GitVersionRoundTrip(v, rest);
  }

  /** `check_all_requirements`: the three checks, and whether all of them passed. */
  function CheckAllRequirements(git: Spawn, gh: Spawn, ghAuth: Spawn): (r: SetupStatus)
    ensures r.git == CheckGitInstalled(git) && r.gh == CheckGhInstalled(gh) && r.ghAuth == CheckGhAuthenticated(ghAuth)
    ensures r.allPassed <==> (git.Ran? && git.output.success) && (gh.Ran? && gh.output.success)
                             && (ghAuth.Ran? && ghAuth.output.success)
  {
    var g := CheckGitInstalled(git);
    var h := CheckGhInstalled(gh);
    var a := CheckGhAuthenticated(ghAuth);
    SetupStatus(g, h, a, g.installed && h.installed && a.installed)
  }
}
