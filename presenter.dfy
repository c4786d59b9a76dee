/**
 * The presentation half of go-fetch.go's `main`: colouring, the table of
 * labelled rows, the alignment of their values, and how the results of the
 * package counter and of the GPU lookup end up in that table.
 */
module Presenter {
  import opened Results
  import opened Decimal
  import opened Format
  import opened Packages
  import opened GpuName

  const Esc: char := '\U{1B}'

  /** The colour codes of the source, and the bold code of the header line. */
  const Text: string := [Esc] + "[34m"
  const Category: string := [Esc] + "[95m"
  const HostCol: string := [Esc] + "[34m"
  const Reset: string := [Esc] + "[0m"
  const Bold: string := [Esc] + "[1m"

  /** `colourise`: the text between a colour code and the reset code. */
  function Colourise(text: string, color: string): string {
    color + text + Reset
  }

  // ---------------------------------------------------------------------------
  // What a terminal shows: the text without its SGR escape sequences
  // ---------------------------------------------------------------------------

  predicate IsParamChar(c: char) {
    '0' <= c <= '9' || c == ';'
  }

  /** The length of the run of SGR parameter characters at the start of `s`. */
  function ParamRun(s: string): (n: nat)
    ensures n <= |s|
    ensures forall k :: 0 <= k < n ==> IsParamChar(s[k])
    ensures n < |s| ==> !IsParamChar(s[n])
  {
    if s != [] && IsParamChar(s[0]) then 1 + ParamRun(s[1..]) else 0
  }

  /** `ESC [ params m`: a select-graphic-rendition sequence, such as a colour code. */
  predicate IsSgr(code: string) {
    && |code| >= 3 && code[0] == Esc && code[1] == '[' && code[|code| - 1] == 'm'
    && forall k :: 2 <= k < |code| - 1 ==> IsParamChar(code[k])
  }

  /** The characters of `s` a terminal shows: every complete SGR sequence removed. */
  function Visible(s: string): string
    decreases |s|
  {
    if s == [] then []
    else if |s| >= 2 && s[0] == Esc && s[1] == '[' && 2 + ParamRun(s[2..]) < |s|
      && s[2 + ParamRun(s[2..])] == 'm'
    then Visible(s[3 + ParamRun(s[2..])..])
    else [s[0]] + Visible(s[1..])
  }

  lemma ParamRunOf(p: string, u: string)
    requires forall k :: 0 <= k < |p| ==> IsParamChar(p[k])
    requires u != [] && !IsParamChar(u[0])
    ensures ParamRun(p + u) == |p|
  {
    assert forall k :: 0 <= k < |p| ==> (p + u)[k] == p[k];
    assert (p + u)[|p|] == u[0];
  }

  /** A leading SGR sequence shows nothing. */
  lemma VisibleSgr(code: string, u: string)
    requires IsSgr(code)
    ensures Visible(code + u) == Visible(u)
  {
    var s := code + u;
    var p := code[2..|code| - 1];
    assert s[2..] == p + (['m'] + u);
    ParamRunOf(p, ['m'] + u);
    assert s[2 + |p|] == 'm';
    assert s[3 + |p|..] == u;
  }

  /** Text without an escape character shows as it is. */
  lemma {:induction false} VisiblePlain(t: string, u: string)
    requires Esc !in t
    ensures Visible(t + u) == t + Visible(u)
  {
    if t != [] {
      assert t[0] in t && t == [t[0]] + t[1..];
      assert (t + u)[0] == t[0];
      assert (t + u)[1..] == t[1..] + u;
      assert Visible(t + u) == [t[0]] + Visible(t[1..] + u);
      VisiblePlain(t[1..], u);
    } else {
      assert t + u == u;
    }
  }

  lemma ColoursAreSgr()
    ensures IsSgr(Text) && IsSgr(Category) && IsSgr(HostCol) && IsSgr(Reset) && IsSgr(Bold)
  {
  }

  /** Colouring text without escapes shows the text and nothing else. */
  lemma ColouriseVisible(t: string, color: string, u: string)
    requires IsSgr(color) && Esc !in t
    ensures Visible(Colourise(t, color) + u) == t + Visible(u)
  {
    ColoursAreSgr();
    assert Colourise(t, color) + u == color + (t + (Reset + u));
    VisibleSgr(color, t + (Reset + u));
    VisiblePlain(t, Reset + u);
    VisibleSgr(Reset, u);
  }

  lemma ColouriseShows(t: string, color: string)
    requires IsSgr(color) && Esc !in t
    ensures Visible(Colourise(t, color)) == t
  {
    ColouriseVisible(t, color, []);
    assert Colourise(t, color) + [] == Colourise(t, color);
    assert t + [] == t;
  }

  // ---------------------------------------------------------------------------
  // The header line
  // ---------------------------------------------------------------------------

  /** The first line `main` prints, without its newline: `user@host`, bold, both names coloured. */
  function Header(username: string, hostname: string): string {
    Bold + (Colourise(username, HostCol) + ("@" + (Colourise(hostname, HostCol) + Reset)))
  }

  /** The header shows exactly `user@host`. */
  lemma HeaderVisible(username: string, hostname: string)
    requires Esc !in username && Esc !in hostname
    ensures Visible(Header(username, hostname)) == username + "@" + hostname
  {
    ColoursAreSgr();
    var z := Colourise(hostname, HostCol) + Reset;
    var y := "@" + z;
    var x := Colourise(username, HostCol) + y;
    VisibleSgr(Bold, x);
    ColouriseVisible(username, HostCol, y);
    VisiblePlain("@", z);
    ColouriseVisible(hostname, HostCol, Reset);
    VisibleReset();
    assert hostname + [] == hostname;
    assert username + ("@" + hostname) == username + "@" + hostname;
  }

  lemma VisibleReset()
    ensures Visible(Reset) == []
  {
    ColoursAreSgr();
    VisibleSgr(Reset, []);
    assert Reset + [] == Reset;
  }

  // ---------------------------------------------------------------------------
  // The rows
  // ---------------------------------------------------------------------------

  datatype Row = Row(caption: string, value: string)

  /** The labels, in the order `main` lists the rows. */
  const Labels: seq<string> :=
    ["Hostname", "OS", "Kernel", "Uptime", "Shell", "CPU", "GPU", "Memory", "Packages"]

  /**
   * What `main` gathers from the host. `shell` is already the last element
   * of `$SHELL`, and `cpuSpeed` the speed already printed with two decimals.
   */
  datatype HostFacts = HostFacts(
    hostname: string, username: string,
    platform: string, platformVersion: string, kernelVersion: string,
    uptime: nat, shell: string,
    cpuModel: string, logicalCores: nat, cpuSpeed: string,
    memUsed: uint64, memTotal: uint64)

  /** The Packages value: the count in decimal, or the error text when the count is negative. */
  function PackagesValue(count: int, err: string): string {
    if count >= 0 then NatToString(count) else "Unable to determine (" + err + ")"
  }

  /** A count that is not negative is shown exactly, as plain digits; otherwise the error is shown. */
  lemma PackagesValueCases(count: int, err: string)
    ensures count >= 0 ==> (Value(PackagesValue(count, err)) == count
      && forall k :: 0 <= k < |PackagesValue(count, err)| ==> IsDigit(PackagesValue(count, err)[k]))
    ensures count < 0 ==> PackagesValue(count, err) == "Unable to determine (" + err + ")"
  {
    if count >= 0 {
      ValueOfNatToString(count);
    }
  }

  /** Distinct package counts are shown as distinct values, whatever the error texts. */
  lemma PackagesValueDistinct(m: nat, n: nat, e1: string, e2: string)
    ensures PackagesValue(m, e1) == PackagesValue(n, e2) <==> m == n
  {
    if PackagesValue(m, e1) == PackagesValue(n, e2) {
      NatToStringInjective(m, n);
    }
  }

  /** The CPU value: `"<model> (<cores> cores @ <speed> GHz)"`. */
  function CpuValue(facts: HostFacts): string {
    facts.cpuModel + " (" + NatToString(facts.logicalCores) + " cores @ " + facts.cpuSpeed + " GHz)"
  }

  /** The table `main` builds, with the GPU and Packages values given. */
  function InfoRows(facts: HostFacts, gpu: string, packages: string): seq<Row>
    requires facts.uptime <= MaxUptime
  {
    [ Row("Hostname", facts.hostname),
      Row("OS", facts.platform + " " + facts.platformVersion),
      Row("Kernel", facts.kernelVersion),
      Row("Uptime", FormatUptime(facts.uptime)),
      Row("Shell", facts.shell),
      Row("CPU", CpuValue(facts)),
      Row("GPU", gpu),
      Row("Memory", BytesText(facts.memUsed) + " / " + BytesText(facts.memTotal)),
      Row("Packages", packages) ]
  }

  /**
   * The rows always come in the same nine-label order; the Uptime value reads
   * back as the uptime's days, hours and minutes; the GPU and Packages rows
   * hold the values given.
   */
  lemma InfoRowsShape(facts: HostFacts, gpu: string, packages: string)
    requires facts.uptime <= MaxUptime
    ensures var rows := InfoRows(facts, gpu, packages);
      && |rows| == |Labels|
      && (forall i :: 0 <= i < |rows| ==> rows[i].caption == Labels[i])
      && ParseUptime(rows[3].value) == Some(UptimeFields(facts.uptime))
      && rows[6].value == gpu && rows[8].value == packages
  {
    var rows := InfoRows(facts, gpu, packages);
    InfoRowsCaptions(rows, facts, gpu, packages);
    assert rows[3].value == FormatUptime(facts.uptime);
    ParseFormatUptime(facts.uptime);
  }

  lemma InfoRowsCaptions(rows: seq<Row>, facts: HostFacts, gpu: string, packages: string)
    requires facts.uptime <= MaxUptime && rows == InfoRows(facts, gpu, packages)
    ensures |rows| == |Labels| && forall i :: 0 <= i < |rows| ==> rows[i].caption == Labels[i]
  {
    LabelsOfRows(rows);
  }

  /** Nine rows whose captions are the labels, one by one. */
  lemma LabelsOfRows(rows: seq<Row>)
    requires |rows| == 9
    requires rows[0].caption == "Hostname" && rows[1].caption == "OS" && rows[2].caption == "Kernel"
    requires rows[3].caption == "Uptime" && rows[4].caption == "Shell" && rows[5].caption == "CPU"
    requires rows[6].caption == "GPU" && rows[7].caption == "Memory" && rows[8].caption == "Packages"
    ensures forall i :: 0 <= i < |rows| ==> rows[i].caption == Labels[i]
  {
  }

  /**
   * Lines 77-92 of `main`: the eight fixed rows, then the Packages row
   * appended with the count or, when it is negative, the text of `err`.
   */
  method BuildInfo(facts: HostFacts, gpu: string, packageCount: int, err: string)
    returns (info: seq<Row>)
    requires facts.uptime <= MaxUptime
    ensures info == InfoRows(facts, gpu, PackagesValue(packageCount, err))
  {
    var used := FormatBytes(facts.memUsed);
    var total := FormatBytes(facts.memTotal);
    info := [
      Row("Hostname", facts.hostname),
      Row("OS", facts.platform + " " + facts.platformVersion),
      Row("Kernel", facts.kernelVersion),
      Row("Uptime", FormatUptime(facts.uptime)),
      Row("Shell", facts.shell),
      Row("CPU", facts.cpuModel + " (" + NatToString(facts.logicalCores) + " cores @ "
                 + facts.cpuSpeed + " GHz)"),
      Row("GPU", gpu),
      Row("Memory", used + " / " + total)
    ];
    if packageCount >= 0 {
      info := info + [Row("Packages", NatToString(packageCount))];
    } else {
      info := info + [Row("Packages", "Unable to determine (" + err + ")")];
    }
  }

  // ---------------------------------------------------------------------------
  // Alignment
  // ---------------------------------------------------------------------------

  /** The loop of `main` that finds the longest label: its length, or 0 for no rows. */
  method MaxLabelLength(info: seq<Row>) returns (m: nat)
    ensures forall i :: 0 <= i < |info| ==> |info[i].caption| <= m
    ensures |info| == 0 ==> m == 0
    ensures |info| > 0 ==> exists i :: 0 <= i < |info| && m == |info[i].caption|
  {
    m := 0;
    for k := 0 to |info|
      invariant forall i :: 0 <= i < k ==> |info[i].caption| <= m
      invariant k == 0 ==> m == 0
      invariant k > 0 ==> exists i :: 0 <= i < k && m == |info[i].caption|
    {
      if |info[k].caption| > m {
        m := |info[k].caption|;
      }
    }
  }

  function Padding(n: nat): (s: string)
    ensures |s| == n && forall k :: 0 <= k < n ==> s[k] == ' '
  {
    seq(n, _ => ' ')
  }

  lemma PaddingPlain(n: nat)
    ensures Esc !in Padding(n)
  {
    var pad := Padding(n);
    assert forall k :: 0 <= k < n ==> pad[k] != Esc;
  }

  /**
   * One row as `main` prints it, without its newline: the coloured label,
   * `width - |label|` spaces, one space, the coloured value.
   */
  function RenderRow(row: Row, width: nat): string
    requires |row.caption| <= width
  {
    Colourise(row.caption, Category) + (Padding(width - |row.caption|) + (" " + Colourise(row.value, Text)))
  }

  /**
   * On screen a row is its label, spaces up to column `width`, and its value
   * from column `width + 1` on: the values of all rows start in one column.
   */
  lemma RenderRowVisible(row: Row, width: nat)
    requires |row.caption| <= width
    requires Esc !in row.caption && Esc !in row.value
    ensures var v := Visible(RenderRow(row, width));
      && |v| == width + 1 + |row.value|
      && v[..|row.caption|] == row.caption
      && (forall k :: |row.caption| <= k <= width ==> v[k] == ' ')
      && v[width + 1..] == row.value
  {
    ColoursAreSgr();
    var pad := Padding(width - |row.caption|);
    var value := Colourise(row.value, Text);
    ColouriseVisible(row.caption, Category, pad + (" " + value));
    PaddingPlain(width - |row.caption|);
    VisiblePlain(pad, " " + value);
    VisiblePlain(" ", value);
    ColouriseShows(row.value, Text);
    RowLayout(row.caption, width - |row.caption|, row.value);
  }

  /** Where the pieces of a label, its padding, the space and the value sit. */
  lemma RowLayout(caption: string, n: nat, value: string)
    ensures var v := caption + (Padding(n) + (" " + value));
      && |v| == |caption| + n + 1 + |value|
      && v[..|caption|] == caption
      && (forall k :: |caption| <= k <= |caption| + n ==> v[k] == ' ')
      && v[|caption| + n + 1..] == value
  {
    var pad := Padding(n);
    var v := caption + (pad + (" " + value));
    assert v[..|caption|] == caption;
    forall k | |caption| <= k <= |caption| + n ensures v[k] == ' ' {
      if k < |caption| + n { assert v[k] == pad[k - |caption|]; }
    }
    assert v[|caption| + n + 1..] == value;
  }

  /** The printing loop of `main`: every row rendered to the width of the longest label. */
  method Render(info: seq<Row>) returns (width: nat, lines: seq<string>)
    ensures forall i :: 0 <= i < |info| ==> |info[i].caption| <= width
    ensures |info| > 0 ==> exists i :: 0 <= i < |info| && width == |info[i].caption|
    ensures |lines| == |info|
    ensures forall i :: 0 <= i < |info| ==> lines[i] == RenderRow(info[i], width)
  {
    width := MaxLabelLength(info);
    lines := [];
    for k := 0 to |info|
      invariant |lines| == k
      invariant forall i :: 0 <= i < k ==> lines[i] == RenderRow(info[i], width)
    {
      lines := lines + [RenderRow(info[k], width)];
    }
  }

  /** The longest label is eight characters: "Hostname" and "Packages". */
  lemma LabelsWidth()
    ensures |Labels[0]| == 8 && forall i :: 0 <= i < |Labels| ==> |Labels[i]| <= 8
  {
  }

  // ---------------------------------------------------------------------------
  // The results of the GPU lookup and of the package counter
  // ---------------------------------------------------------------------------

  /** The GPU value: the name found, or "None" when the lookup failed. */
  function GpuValue(gpu: Result<string>): string {
    if gpu.Success? then gpu.value else "None"
  }

  /** What Go's `%s` prints for a nil `error`. */
  const NilError: string := "%!s(<nil>)"

  /**
   * The Packages value as the source writes it: the failed count is shown
   * with `err`, which by then holds the GPU lookup's error, nil when that
   * lookup succeeded.
   */
  function PackagesRowAsWritten(packages: Result<nat>, gpu: Result<string>): string {
    var count := if packages.Success? then packages.value as int else -1;
    PackagesValue(count, if gpu.Failure? then gpu.error else NilError)
  }

  /** The package counter's own error is lost: another text is shown in its place. */
  lemma PackagesRowAsWrittenLosesError()
    ensures PackagesRowAsWritten(Failure(UnsupportedOs), Success("Apple M1"))
      == "Unable to determine (%!s(<nil>))"
    ensures PackagesRowAsWritten(Failure(UnsupportedOs), Failure("no GPU found"))
      == "Unable to determine (no GPU found)"
    ensures PackagesRowAsWritten(Failure(UnsupportedOs), Success("Apple M1"))
      != "Unable to determine (" + UnsupportedOs + ")"
  {
    var a := PackagesRowAsWritten(Failure(UnsupportedOs), Success("Apple M1"));
    assert a[21] == '%';
    assert ("Unable to determine (" + UnsupportedOs + ")")[21] == 'U';
  }

  /** The Packages value with the package counter's own error. */
  function PackagesRow(packages: Result<nat>): string {
    if packages.Success? then PackagesValue(packages.value, "")
    else PackagesValue(-1, packages.error)
  }

  /**
   * The Packages value shows the count exactly when counting succeeded, and
   * the counter's own error when it failed, whatever the GPU lookup did.
   */
  lemma PackagesRowReports(packages: Result<nat>)
    ensures packages.Success? ==> (Value(PackagesRow(packages)) == packages.value
      && forall k :: 0 <= k < |PackagesRow(packages)| ==> IsDigit(PackagesRow(packages)[k]))
    ensures packages.Failure? ==>
      PackagesRow(packages) == "Unable to determine (" + packages.error + ")"
    ensures packages.Success? <==> PackagesRow(packages)[0] != 'U'
  {
    if packages.Success? {
      PackagesValueCases(packages.value, "");
      assert IsDigit(PackagesRow(packages)[0]);
    }
  }

  /**
   * `main` after the host queries, as written: the header line and the aligned
   * rows, with the GPU shown as `GpuValue` and a failed count shown with the
   * `err` that the GPU lookup left behind (`PackagesRowAsWritten`).
   */
  method Fetch(facts: HostFacts, packages: Result<nat>, gpu: Result<string>)
    returns (header: string, lines: seq<string>)
    requires facts.uptime <= MaxUptime
    ensures header == Header(facts.username, facts.hostname)
    ensures |lines| == |Labels|
    ensures forall i :: 0 <= i < |lines| ==>
      lines[i] == RenderRow(InfoRows(facts, GpuValue(gpu), PackagesRowAsWritten(packages, gpu))[i], 8)
  {
    var packageCount: int := if packages.Success? then packages.value else -1;
    var gpuName := if gpu.Success? then gpu.value else "None";
    // the GPU lookup reassigns `err`, so the Packages row formats its error
    var err := if gpu.Failure? then gpu.error else NilError;
    header := Header(facts.username, facts.hostname);
    var info := BuildInfo(facts, gpuName, packageCount, err);
    InfoRowsShape(facts, gpuName, PackagesRowAsWritten(packages, gpu));
    var width;
    width, lines := Render(info);
    WidthOfLabels(info, width);
  }

  /**
   * `main` with the Packages row corrected: a failed count is shown with the
   * package counter's own error (`PackagesRow`).
   */
  method FetchCorrected(facts: HostFacts, packages: Result<nat>, gpu: Result<string>)
    returns (header: string, lines: seq<string>)
    requires facts.uptime <= MaxUptime
    ensures header == Header(facts.username, facts.hostname)
    ensures |lines| == |Labels|
    ensures forall i :: 0 <= i < |lines| ==>
      lines[i] == RenderRow(InfoRows(facts, GpuValue(gpu), PackagesRow(packages))[i], 8)
  {
    var packageCount: int, err: string;
    if packages.Success? {
      packageCount, err := packages.value, "";
    } else {
      packageCount, err := -1, packages.error;
    }
    assert PackagesValue(packageCount, err) == PackagesRow(packages);
    var gpuName := if gpu.Success? then gpu.value else "None";
    header := Header(facts.username, facts.hostname);
    var info := BuildInfo(facts, gpuName, packageCount, err);
    InfoRowsShape(facts, gpuName, PackagesRow(packages));
    var width;
    width, lines := Render(info);
    WidthOfLabels(info, width);
  }

  /** The width of a table with the nine labels is 8. */
  lemma WidthOfLabels(info: seq<Row>, width: nat)
    requires |info| == |Labels| && forall i :: 0 <= i < |info| ==> info[i].caption == Labels[i]
    requires forall i :: 0 <= i < |info| ==> |info[i].caption| <= width
    requires exists i :: 0 <= i < |info| && width == |info[i].caption|
    ensures width == 8
  {
    LabelsWidth();
    assert |info[0].caption| == 8;
  }

  // ---------------------------------------------------------------------------
  // An end-to-end example
  // ---------------------------------------------------------------------------

  const ExampleFacts: HostFacts := HostFacts(
    "box", "alice", "ubuntu", "22.04", "5.15.0", 3661, "bash",
    "TestCPU", 4, "2.50", 1073741824, 2147483648)

  /** The package tool's output on the example host. */
  function ExampleRun(cmd: Command): Result<string> {
    if cmd == Dpkg then Success("p1\np2\n") else Failure("not found")
  }

  /** The package tool's two lines of output count as two packages. */
  lemma ExamplePackages()
    ensures PackagesRow(PackageCount(Success("ubuntu"), "linux", {}, ExampleRun)) == "2"
  {
    LineCountExamples();
    assert NatToString(2) == "2";
  }

  lemma ExampleCpu()
    ensures CpuValue(ExampleFacts) == "TestCPU (4 cores @ 2.50 GHz)"
  {
    assert NatToString(4) == "4";
  }

  lemma ExampleMemory()
    ensures BytesText(1073741824) + " / " + BytesText(2147483648) == "1.0 GiB / 2.0 GiB"
  {
    BytesTextLargerExamples();
  }

  /** The example's GPU name is kept, because its lower-case `x` stops the pattern matching. */
  lemma ExampleGpu()
    ensures GpuValue(Success(CleanGpuName("0xAB [TestGPU]"))) == "0xAB [TestGPU]"
  {
    CleanGpuNameLowercasePrefix();
  }

  /**
   * The values of every row for one host, with the GPU and Packages values
   * of `ExampleGpu` and `ExamplePackages`.
   */
  lemma ExampleRows()
    ensures var rows := InfoRows(ExampleFacts, "0xAB [TestGPU]", "2");
      && rows[0].value == "box"
      && rows[1].value == "ubuntu 22.04"
      && rows[2].value == "5.15.0"
      && rows[3].value == "0d 1h 1m"
      && rows[4].value == "bash"
      && rows[5].value == "TestCPU (4 cores @ 2.50 GHz)"
      && rows[6].value == "0xAB [TestGPU]"
      && rows[7].value == "1.0 GiB / 2.0 GiB"
      && rows[8].value == "2"
  {
    ExampleMemory();
    ExampleCpu();
    FormatUptimeHourMinute();
  }
}
