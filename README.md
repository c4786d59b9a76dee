# go-fetch in Dafny

go-fetch is a small system-information tool. It prints its output in two parts:

- a bold `user@host` line;
- an aligned, coloured table of nine rows: Hostname, OS, Kernel, Uptime, Shell, CPU, GPU, Memory and Packages.

This project models the logic behind that output and proves properties of it:

- `colourise`.
- `formatUptime`: days, hours and minutes out of seconds.
- `formatBytes`: binary units, with its unit-selection loop and the exact rounding of `%.1f`.
- `cleanGPUName`: the pattern `^[A-Z0-9]+\s*\[(.+)\]$` followed by `strings.TrimSpace`.
- `getPackageCount`: which package tool runs on which system, and how its output becomes a count.
- The part of `main` that builds the rows, finds the longest label and prints the aligned rows.

Host facts are parameters. These include:

- the hostname;
- the platform and its error;
- `runtime.GOOS`;
- the programs on the search path;
- what a command prints;
- the GPU lookup's result.

Modules:

- `Results` holds `Option`, `Result` and `uint64`.
- `Arith` holds `Pow` and lemmas on integer division.
- `Decimal` prints a `nat` in decimal (Go's `%d`) and reads it back.
- `Format` models `formatUptime` and `formatBytes`.
- `GpuName` models `cleanGPUName`.
- `Packages` models `getPackageCount`.
- `Presenter` models `colourise`, the header and the table of `main`.

Conventions:

- Strings are sequences of characters (runes).
- The labels and every piece of text the program itself adds are ASCII, so counting runes and Go's byte lengths agree where the source uses `len`.
- Printed lines are modelled without their final newline.
- On screen, a coloured string shows as `Presenter.Visible` of it: the characters left once every `ESC [ params m` sequence is removed.

Each source function and the Dafny definition that models it (the lemmas about each are in the table below):

- `colourise` (go-fetch.go:32-34): `Presenter.Colourise`.
- `main` (go-fetch.go:39-112): `Presenter.Header`, `Presenter.InfoRows`, `Presenter.BuildInfo`, `Presenter.MaxLabelLength`, `Presenter.RenderRow`, `Presenter.Render`, `Presenter.PackagesRowAsWritten` and `Presenter.Fetch`.
- `formatUptime` (go-fetch.go:116-123): `Format.UptimeFields` and `Format.FormatUptime`.
- `formatBytes` (go-fetch.go:127-138): `Format.SelectUnit`, `Format.FormatBytes` and the specification `Format.BytesText`.
- `getPackageCount` (go-fetch.go:143-183): `Packages.SelectCommand`, `Packages.LineCount` and `Packages.PackageCount`.
- `cleanGPUName` (go-fetch.go:211-218): `GpuName.CleanGpuName`, with `GpuName.TrimSpace` for `strings.TrimSpace`.

## Model

| member | source | states |
|---|---|---|
| Format.NoOverflowUpToMaxUptime | go-fetch.go:116-117 | `time.Duration(uptime) * time.Second` fits in an `int64` exactly when uptime <= 9223372036 s |
| Format.UptimeFieldsBounds | go-fetch.go:116-122 | hours < 24, minutes < 60, and days/hours/minutes stand for the uptime rounded down to the whole minute |
| Format.UptimeFieldsUnique | go-fetch.go:118-120 | no other days/hours/minutes meet those bounds for the same uptime |
| Format.ParseFormatUptime | go-fetch.go:122 | reading `"{d}d {h}h {m}m"` back gives exactly the uptime's fields (round trip) |
| Format.SecondsOfUptimeFields | go-fetch.go:116-122 | the printed fields are 60 * (uptime / 60) seconds: leftover seconds are dropped |
| Format.FormatUptimeSameMinute | go-fetch.go:116-122 | two uptimes print the same text if and only if they agree on the whole minute |
| Format.FormatUptimeExamples | go-fetch.go:116-122 | 0 prints "0d 0h 0m", 90061 prints "1d 1h 1m", 3661 prints "0d 1h 1m" |
| Format.UnitExp | go-fetch.go:132-136 | the exponent found lies in the range 1024^(e+1) <= b < 1024^(e+2) |
| Format.UnitExpUnique | go-fetch.go:132-136 | only one exponent puts `b` in that range |
| Format.UnitExpAtMostFive | go-fetch.go:137 | every uint64 needs at most exponent 5, so `"KMGTPE"[exp]` never goes out of range |
| Format.SelectUnit | go-fetch.go:132-136 | the loop ends with `div` the largest power of 1024 not above `bytes` (div <= bytes < 1024*div), and `exp` is that power minus one, at most 5 |
| Format.RoundHalfEven | go-fetch.go:137 | the quotient is rounded to the nearest integer, ties to even, as Go's `%.1f` does |
| Format.Float64Exact | go-fetch.go:137 | `float64(b)` is exact below 2^53 |
| Format.FormatBytes | go-fetch.go:127-138 | the method, with the source's loop, computes the `BytesText` specification |
| Format.BytesTextWhole | go-fetch.go:129-131 | below 1024 the text is the decimal count and " B", with no fractional part |
| Format.BytesTextPrefix | go-fetch.go:132-137 | from 1024 on, the text ends with the prefix letter of the unique range b lies in, then "iB" |
| Format.TenthsNearest | go-fetch.go:137 | below 2^53 the tenths shown are within half a tenth of bytes/div |
| Format.BytesTextExamples | go-fetch.go:127-138 | 0 → "0 B", 1023 → "1023 B", 1024 → "1.0 KiB", 1536 → "1.5 KiB", 1280 → "1.2 KiB" (tie to even), 1048575 → "1024.0 KiB", 1 MiB/1 GiB/2 GiB |
| Decimal.ValueOfNatToString | go-fetch.go:89 | the decimal text of a count (`%d`) reads back as the count |
| GpuName.TrimSpace | go-fetch.go:215 | the result is the input with only whitespace removed from its ends, and starts and ends with a non-space |
| GpuName.TrimSpaceUnique | go-fetch.go:215 | those two conditions determine the trimmed text |
| GpuName.TrimSpaceIdempotent | go-fetch.go:215 | trimming twice equals trimming once |
| GpuName.TrimSpaceOfTrimmed | go-fetch.go:215 | a text that starts and ends with a non-space is left unchanged |
| GpuName.MatchesAtRuns | go-fetch.go:212 | a match of the pattern can split the name only at the ends of the `[A-Z0-9]+` and `\s*` runs |
| GpuName.CleanGpuNameOnMatch | go-fetch.go:211-216 | on a match the result is the trimmed text between the `[` and the final `]` |
| GpuName.MatchesIffBracketed | go-fetch.go:212-214 | the pattern matches exactly when, after the two runs, a `[`, a non-empty body without a newline and a final `]` follow |
| GpuName.CleanGpuNameOfShape | go-fetch.go:211-216 | any `[A-Z0-9]+` prefix, `\s*` spaces and bracketed newline-free body clean to the trimmed body |
| GpuName.CleanGpuNameNoMatch | go-fetch.go:211-218 | the name comes back unchanged if and only if the pattern does not match |
| GpuName.CleanGpuNameShortens | go-fetch.go:211-216 | on a match the result is strictly shorter than the name |
| GpuName.CleanGpuNameIntel | go-fetch.go:211-218 | "Intel HD Graphics" is kept as it is |
| GpuName.CleanGpuNameLowercasePrefix | go-fetch.go:212 | "0xAB [TestGPU]" is kept as it is: the lower-case `x` stops the match |
| GpuName.CleanGpuNameGeForce | go-fetch.go:211-216 | "0300 [GeForce RTX 3080]" becomes "GeForce RTX 3080" |
| GpuName.CleanGpuNameNoSpace | go-fetch.go:212 | `\s*` may be empty: "AB12[Foo]" becomes "Foo" |
| GpuName.CleanGpuNameQuadro | go-fetch.go:215 | spaces inside the brackets are trimmed: "10DE [ Quadro ]" becomes "Quadro" |
| Packages.FirstOnPath | go-fetch.go:162-167 | returns the first probed tool on the path, and none is on the path before it; with no result, none is on the path |
| Packages.SelectCommandIsTable | go-fetch.go:151-174 | the nested switch picks the same command as a table of known distributions plus the probe order dpkg, pacman, rpm |
| Packages.SelectCommandProbes | go-fetch.go:160-170 | on an unknown distribution the first tool on the path is chosen; the choice fails, with "unsupported Linux distribution", if and only if none is on the path |
| Packages.SelectCommandKnown | go-fetch.go:153-159 | a known distribution gets its tool whatever is on the path |
| Packages.SelectCommandOutcomes | go-fetch.go:151-174 | each outcome is one of the three commands or one of the two messages; "Unsupported OS for package counting" comes exactly when GOOS is not linux |
| Packages.SplitJoin | go-fetch.go:182 | `strings.Split` on "\n" loses nothing: joining the pieces gives the text back, and no piece holds a newline |
| Packages.SplitLength | go-fetch.go:182 | there is one more piece than newlines |
| Packages.LineCountIsNewlines | go-fetch.go:182 | the count is the number of newline characters in the output |
| Packages.LineCountExamples | go-fetch.go:182 | "" counts 0, "a\nb\nc\n" counts 3, "p1\np2\n" counts 2, "a\nb" counts 1 |
| Packages.PackageCountCases | go-fetch.go:143-183 | the result is the count of newlines exactly when the platform, the choice and the run all succeed; otherwise it is the error of the first step that failed |
| Presenter.ColouriseVisible | go-fetch.go:32-34 | coloured text without escape characters shows as exactly that text |
| Presenter.HeaderVisible | go-fetch.go:70 | the header line shows exactly `user@host` |
| Presenter.PackagesValueCases | go-fetch.go:88-92 | a non-negative count is shown as digits that read back as the count; a negative one shows "Unable to determine (<err>)" |
| Presenter.InfoRowsShape | go-fetch.go:73-92 | nine rows in the fixed label order; the Uptime value reads back as the uptime's fields; GPU and Packages carry the values given |
| Presenter.PackagesValueDistinct | go-fetch.go:88-89 | two counts are shown as the same Packages value exactly when they are equal |
| Presenter.BuildInfo | go-fetch.go:73-92 | the method (the eight rows, then the appended Packages row) builds the `InfoRows` table with the Packages value chosen by the count's sign |
| Presenter.MaxLabelLength | go-fetch.go:95-100 | the loop's result is at least every label's length and is the length of one of them (0 for no rows) |
| Presenter.RenderRowVisible | go-fetch.go:103-109 | on screen each row is its label, then spaces up to column `width`, then its value from column `width + 1` |
| Presenter.Render | go-fetch.go:94-109 | every row is rendered to the width of the longest label |
| Presenter.PackagesRowAsWrittenLosesError | go-fetch.go:58-67 | as written, a failed count is shown with the GPU lookup's error, or "%!s(<nil>)" when that lookup succeeded, not with the counter's error |
| Presenter.PackagesRowReports | go-fetch.go:57-61 | corrected: the count is shown exactly when counting succeeded, and the counter's own error when it failed |
| Presenter.Fetch | go-fetch.go:57-109 | the header, and nine lines, each the table's row rendered at width 8; GPU "None" on a failed lookup; a failed count shown, as written, with the GPU lookup's error or "%!s(<nil>)" |
| Presenter.FetchCorrected | go-fetch.go:57-109 | the same output with the corrected Packages row: a failed count shown with the package counter's own error |
| Presenter.ExamplePackages | go-fetch.go:143-183 | on an ubuntu host whose dpkg prints "p1\np2\n", the package counter yields the count 2 and the Packages value reads "2" |
| Presenter.ExampleGpu | go-fetch.go:64-67 | the GPU name "0xAB [TestGPU]" is shown unchanged |
| Presenter.ExampleRows | go-fetch.go:77-92 | for that host the rows read "box", "ubuntu 22.04", "5.15.0", "0d 1h 1m", "bash", "TestCPU (4 cores @ 2.50 GHz)", "0xAB [TestGPU]", "1.0 GiB / 2.0 GiB", "2" |

The pattern's `[A-Z0-9]+` cannot match the lower-case `x` in `0xAB [TestGPU]`, so `GpuName.CleanGpuNameLowercasePrefix`, `Presenter.ExampleGpu` and `Presenter.ExampleRows` show that name unchanged.

## Left out

- Host queries and I/O are inputs or are not modelled:
  - `os.Hostname`, `os.Getenv`, `host.Info`, `mem.VirtualMemory`, `exec.LookPath`: their results are parameters. The search path is a set of program names.
  - `cmd.Output`: its result is the parameter `run`.
  - `main` ignores the failures of `host.Info` and `mem.VirtualMemory`. The model is given the facts and does not model a nil result.
  - The log-file redirect of standard error and `ghw.WithDisableWarnings` are not modelled.
- `getCPUInfo` is not part of this model. The model gets the CPU model, the core count and the speed already formatted with `%.2f`. That formatting is a floating-point division of the MHz value.
- `getGPUInfo` is not modelled: the `ghw` device query and its "Unknown GPU (Vendor: …)" and "None" answers. Its result is the parameter `gpu`. `cleanGPUName`, which it calls, is modelled.
- `printColorBlocks` (terminal colour-profile detection) is not part of this model.
- `filepath.Base` of `$SHELL` is not modelled; the Shell value arrives already reduced.
- Format.FormatUptime: requires uptime <= 9223372036. Above that, `time.Duration(uptime) * time.Second` wraps around in `int64`, and that wrap-around is not modelled.
- Format.UptimeFields: uses integer quotients in place of `int(duration.Hours())` and `int(duration.Minutes())`. Below the bound the float quotients truncate to the same integers, but the model does not carry out the float computation.
- Presenter.Visible: recognises only complete `ESC [ digits-and-semicolons m` sequences. It is not a full terminal emulator.
- Presenter.HostFacts: the core count is a `nat`. `runtime.NumCPU` is at least 1, so a negative `%d` does not arise.

## Findings

| source | as written | input that shows it | evidently intended | confidence | as-written member | corrected member |
|---|---|---|---|---|---|---|
| go-fetch.go:58-67 | `err` from `getPackageCount` is overwritten at line 64 by `getGPUInfo`'s error before line 91 prints it | GOOS "darwin" (counting fails with "Unsupported OS for package counting") and a GPU lookup that succeeds: the row reads "Unable to determine (%!s(<nil>))" | the row shows the package counter's own error: "Unable to determine (Unsupported OS for package counting)" | high; not executed | Presenter.PackagesRowAsWrittenLosesError | Presenter.PackagesRowReports |
