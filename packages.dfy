/**
 * The package counter of go-fetch.go (`getPackageCount`): which package tool
 * to run on which system, and how its output becomes a count. The host's
 * facts come in as parameters: the platform reported by `host.Info()` (or
 * its error), `runtime.GOOS`, the executables on the search path, and what
 * running a command prints (or the error it fails with).
 */
module Packages {
  import opened Results

  /** An external command: the program and its arguments. */
  datatype Command = Command(program: string, args: seq<string>)

  const Dpkg: Command := Command("dpkg", ["--get-selections"])
  const Pacman: Command := Command("pacman", ["-Q"])
  const Rpm: Command := Command("rpm", ["-qa"])

  const UnsupportedOs: string := "Unsupported OS for package counting"
  const UnsupportedDistribution: string := "unsupported Linux distribution"

  /** The command-selection `switch` of `getPackageCount`. */
  function SelectCommand(goos: string, platform: string, onPath: set<string>): Result<Command> {
    if goos != "linux" then Failure(UnsupportedOs)
    else if platform == "debian" || platform == "ubuntu" then Success(Dpkg)
    else if platform == "arch" then Success(Pacman)
    else if platform == "fedora" || platform == "centos" || platform == "rhel" then Success(Rpm)
    else if "dpkg" in onPath then Success(Dpkg)
    else if "pacman" in onPath then Success(Pacman)
    else if "rpm" in onPath then Success(Rpm)
    else Failure(UnsupportedDistribution)
  }

  // ---------------------------------------------------------------------------
  // The same choice as data: a table of known distributions and a probe order.
  // ---------------------------------------------------------------------------

  const KnownDistributions: map<string, Command> :=
    map["debian" := Dpkg, "ubuntu" := Dpkg, "arch" := Pacman,
        "fedora" := Rpm, "centos" := Rpm, "rhel" := Rpm]

  /** The tools probed, in order, on a distribution the table does not know. */
  const ProbeOrder: seq<Command> := [Dpkg, Pacman, Rpm]

  /** The index in `cmds` of the first command whose program is on the path. */
  function FirstOnPath(cmds: seq<Command>, onPath: set<string>): (r: Option<nat>)
    ensures r.Some? ==> (r.value < |cmds| && cmds[r.value].program in onPath
      && forall j :: 0 <= j < r.value ==> cmds[j].program !in onPath)
    ensures r.None? ==> forall j :: 0 <= j < |cmds| ==> cmds[j].program !in onPath
  {
    if cmds == [] then None
    else if cmds[0].program in onPath then Some(0)
    else match FirstOnPath(cmds[1..], onPath)
      case None => None
      case Some(i) => Some(i + 1)
  }

  function SelectByTable(goos: string, platform: string, onPath: set<string>): Result<Command> {
    if goos != "linux" then Failure(UnsupportedOs)
    else if platform in KnownDistributions then Success(KnownDistributions[platform])
    else match FirstOnPath(ProbeOrder, onPath)
      case None => Failure(UnsupportedDistribution)
      case Some(i) => Success(ProbeOrder[i])
  }

  /** The source's nested switch and the table-driven choice agree on every input. */
  lemma SelectCommandIsTable(goos: string, platform: string, onPath: set<string>)
    ensures SelectCommand(goos, platform, onPath) == SelectByTable(goos, platform, onPath)
  {
    if goos == "linux" && platform !in KnownDistributions {
      assert platform != "debian" && platform != "ubuntu" && platform != "arch";
      assert platform != "fedora" && platform != "centos" && platform != "rhel";
      assert ProbeOrder[0].program == "dpkg" && ProbeOrder[1].program == "pacman"
        && ProbeOrder[2].program == "rpm";
      var r := FirstOnPath(ProbeOrder, onPath);
      if r.Some? {
        assert r.value == 0 || r.value == 1 || r.value == 2;
      }
    }
  }

  /**
   * On Linux and an unknown distribution, the choice is the first of dpkg,
   * pacman and rpm on the path; it fails exactly when none of them is.
   */
  lemma SelectCommandProbes(platform: string, onPath: set<string>)
    requires platform !in KnownDistributions
    ensures SelectCommand("linux", platform, onPath).Failure?
      <==> "dpkg" !in onPath && "pacman" !in onPath && "rpm" !in onPath
    ensures SelectCommand("linux", platform, onPath).Failure? ==>
      SelectCommand("linux", platform, onPath).error == UnsupportedDistribution
    ensures SelectCommand("linux", platform, onPath).Success? ==>
      exists i :: 0 <= i < |ProbeOrder| && SelectCommand("linux", platform, onPath).value == ProbeOrder[i]
        && ProbeOrder[i].program in onPath
        && forall j :: 0 <= j < i ==> ProbeOrder[j].program !in onPath
  {
    SelectCommandIsTable("linux", platform, onPath);
    var r := FirstOnPath(ProbeOrder, onPath);
    if r.None? {
      assert ProbeOrder[0].program !in onPath && ProbeOrder[1].program !in onPath
        && ProbeOrder[2].program !in onPath;
    }
  }

  /** Every outcome is one of the three commands or one of the two messages. */
  lemma SelectCommandOutcomes(goos: string, platform: string, onPath: set<string>)
    ensures var r := SelectCommand(goos, platform, onPath);
      (r.Success? ==> r.value in ProbeOrder) &&
      (r.Failure? ==> r.error in {UnsupportedOs, UnsupportedDistribution}) &&
      (r == Failure(UnsupportedOs) <==> goos != "linux")
  {
  }

  /** Known distributions get their tool whatever is on the path. */
  lemma SelectCommandKnown(platform: string, onPath: set<string>)
    requires platform in KnownDistributions
    ensures SelectCommand("linux", platform, onPath) == Success(KnownDistributions[platform])
  {
    SelectCommandIsTable("linux", platform, onPath);
  }

  // ---------------------------------------------------------------------------
  // Counting the lines of output
  // ---------------------------------------------------------------------------

  /** `strings.Split(s, "\n")`: the pieces between newlines, always at least one. */
  function Split(s: string): (parts: seq<string>)
    ensures |parts| >= 1
  {
    if s == [] then [""]
    else
      var rest := Split(s[1..]);
      if s[0] == '\n' then [""] + rest else [[s[0]] + rest[0]] + rest[1..]
  }

  /** Joins pieces with a newline between each two. */
  function Join(parts: seq<string>): string
    requires |parts| >= 1
  {
    if |parts| == 1 then parts[0] else parts[0] + "\n" + Join(parts[1..])
  }

  /** The number of newline characters in `s`. */
  function Newlines(s: string): nat {
    if s == [] then 0 else (if s[0] == '\n' then 1 else 0) + Newlines(s[1..])
  }

  /** Splitting loses nothing: joining the pieces back gives the text, and no piece holds a newline. */
  lemma {:induction false} SplitJoin(s: string)
    ensures Join(Split(s)) == s
    ensures forall i :: 0 <= i < |Split(s)| ==> '\n' !in Split(s)[i]
  {
    if s != [] {
      SplitJoin(s[1..]);
      var rest := Split(s[1..]);
      if s[0] == '\n' {
        assert Split(s)[1..] == rest;
        assert s == "" + "\n" + s[1..];
      } else {
        var parts := Split(s);
        assert parts[0] == [s[0]] + rest[0];
        if |rest| == 1 {
          assert s == [s[0]] + s[1..];
        } else {
          assert parts[1..] == rest[1..];
          assert Join(rest) == rest[0] + "\n" + Join(rest[1..]);
          assert s == [s[0]] + s[1..];
        }
        forall i | 0 <= i < |parts| ensures '\n' !in parts[i] {
          if i > 0 { assert parts[i] == rest[i]; }
        }
      }
    }
  }

  /** There is one more piece than there are newlines. */
  lemma {:induction false} SplitLength(s: string)
    ensures |Split(s)| == Newlines(s) + 1
  {
    if s != [] {
      SplitLength(s[1..]);
    }
  }

  /** The count `getPackageCount` returns: `len(strings.Split(out, "\n")) - 1`. */
  function LineCount(out: string): nat {
    |Split(out)| - 1
  }

  /** The count is the number of newlines, whatever the content of the lines. */
  lemma LineCountIsNewlines(out: string)
    ensures LineCount(out) == Newlines(out)
  {
    SplitLength(out);
  }

  lemma LineCountExamples()
    ensures LineCount("") == 0
    ensures LineCount("a\nb\nc\n") == 3
    ensures LineCount("p1\np2\n") == 2
    ensures LineCount("a\nb") == 1
  {
    LineCountIsNewlines("");
    LineCountIsNewlines("a\nb\nc\n");
    LineCountIsNewlines("p1\np2\n");
    LineCountIsNewlines("a\nb");
  }

  // ---------------------------------------------------------------------------
  // getPackageCount
  // ---------------------------------------------------------------------------

  /**
   * `getPackageCount`: `platform` is what `host.Info()` gives (its `Platform`,
   * or its error), `run` what `cmd.Output()` gives for a command.
   */
  function PackageCount(platform: Result<string>, goos: string, onPath: set<string>,
                        run: Command -> Result<string>): Result<nat>
  {
    if platform.Failure? then Failure(platform.error)
    else match SelectCommand(goos, platform.value, onPath)
      case Failure(e) => Failure(e)
      case Success(cmd) =>
        match run(cmd)
        case Failure(e) => Failure(e)
        case Success(out) => Success(LineCount(out))
  }

  /**
   * The count succeeds exactly when the platform is known, a command is
   * chosen and it runs; the count is then the newlines in that command's
   * output, and each failure passes on the error of the step that failed.
   */
  lemma PackageCountCases(platform: Result<string>, goos: string, onPath: set<string>,
                          run: Command -> Result<string>)
    ensures var r := PackageCount(platform, goos, onPath, run);
      && (platform.Failure? ==> r == Failure(platform.error))
      && (platform.Success? ==>
            var sel := SelectCommand(goos, platform.value, onPath);
            && (sel.Failure? ==> r == Failure(sel.error))
            && (sel.Success? && run(sel.value).Failure? ==> r == Failure(run(sel.value).error))
            && (sel.Success? && run(sel.value).Success? ==>
                  r == Success(Newlines(run(sel.value).value))))
  {
    if platform.Success? {
      var sel := SelectCommand(goos, platform.value, onPath);
      if sel.Success? && run(sel.value).Success? {
        LineCountIsNewlines(run(sel.value).value);
      }
    }
  }
}
