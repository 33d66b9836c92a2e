# zipbomb trial engine and sample generators, modelled in Dafny

The repository benchmarks compression tools. `runner.py` runs every sample file
through every configured algorithm at every configured level. Each run is a
compress command and, when that succeeds, a decompress command. The runner
watches every command's memory, CPU time and I/O counters until it exits,
vanishes, fails or exceeds its timeout, and it writes one CSV row per phase.
`generator.py` writes the three sample files (repetitive, patterned,
"realistic") of a given size.

The model has six modules:

- `Wrappers`: the `Option` type.
- `Text`: the string helpers of the runner.
  - Python's `str.strip`.
  - The decompressed-output path read back from a command: the text after the
    last `>`, stripped, or empty.
  - Named substitution of `{level}`, `{infile}` and `{outfile}` in command
    templates.
  - `level_str`: the decimal rendering of a numeric level.
  - `safe_cmd`.
- `Monitor`: `run_and_monitor` as a method that consumes a trace of
  observations.
  - Each step is either "the process exited with code r" or "a sample was
    taken, then the clock read t".
  - A sample can fail at any of its three queries. It fails either because the
    process vanished or for some other reason.
  - A final step carries the clock reading after the loop and the best-effort
    final sample.
  - Time is an integer tick count.
  - The method is proved equal to `Expected`, a specification of the result
    stated from the step that ends the loop. Lemmas about `Expected` state the
    properties of the result record.
- `Locator`: the candidate loop that picks the compressed artifact among the
  directory entries that extend the input path.
- `Orchestrator`: `main`'s three nested loops (samples × algorithms × levels)
  and the phase logic of one combination.
  - The environment supplies every run's trace, the directory listings and the
    file sizes.
  - The CSV writer is the output sequence of events: rows, plus one deletion
    event per cleanup.
  - A compress command is `Format` of the algorithm's compress template with
    `CompressBindings`; a decompress command is `Format` of its decompress
    template with `DecompressBindings`.
  - The loops are proved to produce `MatrixEvents`. Lemmas about that sequence
    state the order of the rows and when a decompress row and a deletion occur.
- `Generator`: the three fill loops, with the file as a growing byte sequence.
  - The random choices are a function from turn number to pattern position.
  - The random block is a 1024-byte input.
  - Each loop is proved to write `Fill` of its chunk source. Lemmas state
    `Fill`'s length and content.

Notes on what the code does, which the model follows:

- On a timeout, `proc.kill()` kills only the shell, not the process group, so
  no process-group kill is modelled.
- When the process vanishes, the code still takes the final sample before
  returning `finished`.
- When the process vanishes, `returncode` is whatever `proc.returncode` holds,
  which is `None` when `poll()` never saw the exit.
- The artifact is searched for by `glob(infile + "*")`, that is by the input
  path as a prefix, not by an expected output name.

## Model

| member | source | states |
|---|---|---|
| `Monitor.RunAndMonitor` | runner.py:21-63 | the sampling loop returns exactly the result `Expected` gives for the trace: finished with the summary of every reading and the final sample, timeout with the readings so far, or error with the exception text |
| `Monitor.TakeSample` | runner.py:35-41 | one sample updates the running peak by a maximum and overwrites CPU time and the I/O counters, query by query, stopping at the first failed query |
| `Monitor.SummaryExtend` | runner.py:35-41 | the running updates compute the summary of all readings so far: the peak of the memory readings and the latest CPU and I/O readings |
| `Monitor.MaxOrZero` | runner.py:26 | the peak is at least every reading, is one of them, and is 0 when there is none |
| `Monitor.FirstEnd` | runner.py:31-47 | the loop ends at the first step that exits, faults or passes the timeout; no earlier step does |
| `Monitor.ObservedProbesAre` | runner.py:35-60 | a run's metrics reflect exactly the samples up to the step that ends the loop, plus the final sample when the run finishes |
| `Monitor.PeakIsMaximumReading` | runner.py:51-52 | the reported `peak_rss` is at least every memory reading, the final sample's included; it equals one of them, or 0 when there was none |
| `Monitor.CountersAreLastReadings` | runner.py:37-41 | CPU time and both I/O counters are those of the last sample that delivered them (overwritten, never summed), or 0 when none did |
| `Monitor.TimeoutExactly` | runner.py:44-46 | the status is `timeout` if and only if a complete sample was taken with the clock strictly past the timeout and no earlier step ended the loop; the elapsed time then exceeds the timeout and no return code is carried |
| `Monitor.VanishedProcessFinishes` | runner.py:42-60 | a process that vanishes during sampling ends the run as `finished`, never `error`, with no return code |
| `Monitor.ExitedProcessFinishes` | runner.py:32-60 | a process seen to exit ends the run as `finished` with its return code |
| `Monitor.ErrorExactly` | runner.py:61-63 | the status is `error` exactly when an unexpected query failure ended the loop, and the error record holds only that failure's text |
| `Monitor.FinalSampleIsBestEffort` | runner.py:50-60 | the final sample never changes the status; when it fails at once, the run reports the metrics the loop observed |
| `Locator.Glob` | runner.py:104 | the candidates are exactly the entries whose name starts with the input path |
| `Locator.FirstQualifying` | runner.py:107-114 | the index of the first present, non-empty candidate other than the input file; none before it qualifies |
| `Locator.FirstPreferred` | runner.py:107-112 | the index of the first qualifying candidate with a recognised extension; none before it is one |
| `Locator.SelectArtifact` | runner.py:104-116 | the candidate loop with its `break` picks exactly `Located`: the first qualifying candidate with an extension, else the first qualifying one, else none |
| `Locator.LocatedQualifies` | runner.py:109 | the chosen artifact is a candidate of positive size whose name differs from the input path |
| `Locator.LocatedNoneExactly` | runner.py:105-116 | nothing is chosen if and only if no candidate qualifies |
| `Locator.LocatedPrefersExtension` | runner.py:110-114 | the first qualifying candidate with an extension wins; without one, the first qualifying candidate wins |
| `Locator.NoExtensionsTakesFirst` | runner.py:110 | an empty extension list matches nothing, so the first qualifying candidate is chosen |
| `Locator.LocatedExtendsInput` | runner.py:104-116 | what is located after a compress run starts with the input path and is not the input path itself |
| `Orchestrator.Timeout` | runner.py:102 | the timeout is `timeout_seconds` when configured, else 300 |
| `Orchestrator.LevelsOf` | runner.py:96 | an algorithm's levels are its `levels` list, or the single missing level (whose level string is empty) when the key is absent |
| `Orchestrator.Widths` | runner.py:96 | each algorithm runs at its configured levels, or at the single missing level when `levels` is absent |
| `Orchestrator.CombosEnumerate` | runner.py:91-96 | the nested loops visit every valid (sample, algorithm, level) exactly once, in samples × algorithms × levels order |
| `Orchestrator.JoinPath` | runner.py:131 | the joined path is the directory, `/` and the name, or the directory and the name directly when the directory is empty or already ends in `/` |
| `Orchestrator.CompressBindings` | runner.py:97-99 | the compress template's `{level}` formats to the level string, `{infile}` to the sample path and `{outfile}` to the sample path with `.out` appended |
| `Orchestrator.DecompressOutfile` | runner.py:131 | the decompress output path lies in the work directory and ends in `decompressed_<sample>_<algorithm>_<level>` |
| `Orchestrator.DecompressBindings` | runner.py:131 | the decompress template's `{infile}` formats to the located artifact, `{outfile}` to the decompress output path, and `{level}` is left as it is |
| `Orchestrator.RunCompress` | runner.py:97-118 | the compress phase writes the compress record (formatted command, monitor result, input size, artifact size) and returns the located artifact |
| `Orchestrator.RunDecompress` | runner.py:131-135 | the decompress phase formats its command without a level, runs it, and measures the file the command redirects to |
| `Orchestrator.RunCombination` | runner.py:99-145 | one combination yields its compress row, then the decompress row and the deletion only after a finished compression that left an artifact |
| `Orchestrator.RunLevels` | runner.py:96-145 | the levels loop yields the events of each level of one algorithm, in order |
| `Orchestrator.RunAlgorithms` | runner.py:94-145 | the algorithms loop yields the events of each algorithm of one sample, in order |
| `Orchestrator.RunSamples` | runner.py:91-145 | the samples loop yields the events of every combination, in the order the loops visit them |
| `Orchestrator.RunMatrix` | runner.py:80-145 | an empty samples directory is a usage error with no output; otherwise the run writes exactly `MatrixEvents` |
| `Orchestrator.ComboEventsShape` | runner.py:118-145 | a combination has exactly one compress row, first, and a decompress row exactly when it proceeds |
| `Orchestrator.MatrixCompressRows` | runner.py:91-118 | the compress rows are one per valid combination, in samples × algorithms × levels order |
| `Orchestrator.MatrixDecompressRows` | runner.py:121-135 | there is a decompress row exactly for the combinations whose compression finished and left an artifact, in order |
| `Orchestrator.MatrixPhaseOrder` | runner.py:118-145 | every decompress row comes right after the finished compress row of its own combination and right before a deletion; a deletion occurs nowhere else |
| `Orchestrator.NoSamplesNoEvents` | runner.py:80-83 | without samples nothing is run or written |
| `Orchestrator.DecompressSizeMeasuresOutfile` | runner.py:131-134 | when the decompress template ends in `> {outfile}`, the size measured is that of the decompress output path |
| `Text.Strip` | runner.py:133 | `strip()` leaves no whitespace at either end and keeps only characters of its input |
| `Text.StripRemovesOnlySpace` | runner.py:133 | `strip()` removes whitespace only, and only at the two ends |
| `Text.AfterLast` | runner.py:133 | `split(">")[-1]` is the suffix after the last `>`, which holds no `>`; it is the whole text when there is no `>` |
| `Text.RedirectTarget` | runner.py:133 | the decompress output path holds no `>`, is stripped, and is empty when the command has no `>` |
| `Text.RedirectTargetOfRedirect` | runner.py:133 | a command that redirects to a stripped path reads back exactly that path |
| `Text.Format` | runner.py:99 | a template with no `{` is copied unchanged |
| `Text.FormatKeys` | runner.py:99 | each of `{infile}` and `{outfile}` alone formats to its bound value, and `{level}` to the bound level; with no level bound, `{level}` is copied as it is |
| `Text.FormatAppend` | runner.py:131 | substitution distributes over a split that does not cut a placeholder |
| `Text.FormatRedirect` | runner.py:131 | a template ending in `> {outfile}` formats to its formatted prefix followed by `> ` and the bound output path |
| `Text.LevelString` | runner.py:97 | `level_str` is empty for a missing level, the string itself for a string level, and for a numeric level a canonical decimal numeral (no leading zero, no `-0`) that parses back to it |
| `Text.CanonicalNumeralUnique` | runner.py:97 | two canonical decimal numerals with the same value are the same string, so the numeric case of `level_str` is exactly `str(level)` |
| `Text.SafeCmd` | runner.py:65-67 | `safe_cmd` returns its argument unchanged |
| `Text.IntToStringRoundTrip` | runner.py:97 | `str` of a numeric level parses back to the same integer |
| `Text.NumberLevelsDistinct` | runner.py:97 | two different numeric levels render to different level strings |
| `Generator.SizeBytes` | generator.py:51 | the size in bytes is a whole number of mebibytes, exactly `size_mb` of them |
| `Generator.GenRepetitive` | generator.py:10-17 | the loop writes `Fill` of the repeated 1024-byte `A` chunk, exactly `size_bytes` bytes (none when `size_bytes <= 0`) |
| `Generator.GenPatterned` | generator.py:19-27 | the loop writes `Fill` of the patterns chosen turn by turn, exactly `size_bytes` bytes |
| `Generator.GenRealistic` | generator.py:29-43 | the loop writes `Fill` of the text and the random block by turns, text first, exactly `size_bytes` bytes |
| `Generator.FillLength` | generator.py:14-17 | a fill writes exactly the missing bytes, and nothing when nothing is missing |
| `Generator.CutsLengths` | generator.py:23-27 | every turn writes a non-empty start of its chunk of length `min(len(chunk), size_bytes - written)`; every turn but the last writes the whole chunk |
| `Generator.ChosenCuts` | generator.py:24-25 | turn `i` of the patterned loop writes the pattern picked on turn `i` |
| `Generator.AlternateCuts` | generator.py:35-43 | turn `i` of the alternating loop writes the first chunk on even turns and the second on odd turns |
| `Generator.ChunkConstants` | generator.py:11-32 | the chunk is 1024 `A` bytes, the four patterns have 11, 8, 256 and 128 bytes, and the text chunk 570 |
| `Generator.RepetitiveAllA` | generator.py:10-17 | the repetitive file has `size_bytes` bytes, all `A` |
| `Generator.PatternedChunks` | generator.py:20-27 | the patterned file is the chosen patterns one after another, each whole except the last, of which a non-empty start is written |
| `Generator.RealisticChunks` | generator.py:31-43 | the realistic file alternates the text and the random block, text first, each whole except the last |

## Left out

- Process control is not modelled: `Popen`, `setsid`, `poll`, `kill` and the psutil queries. A run is the trace of what they report.
- A failure of `Popen` itself (before the `try`) is not modelled.
- Monitor.RunAndMonitor: requires that some step of the trace ends the loop. The real loop ends because the clock advances past the timeout. The integer trace has no such guarantee, so the precondition stands in for it.
- Monitor.TimeoutExactly: the elapsed time of a timeout is measured at the clock reading that triggered it. The source reads the clock once more for the record, which is at least as late.
- The sampling interval and `time.sleep` are not modelled. Only the readings between the sleeps matter to the result.
- CPU time is an abstract `real` reading. The float sum `user + system` is not modelled.
- Orchestrator.RunMatrix: requires a run for both phases of every combination and that every run's trace ends, for the same reason as `Monitor.RunAndMonitor`.
- Orchestrator.RunMatrix: the samples arrive as a list already in the order `sorted` gives them. The sort of the directory listing at runner.py:80 is not modelled, so nothing is proved about the order of the sample paths themselves.
- Directory listings, `stat`, `exists` and `getsize` are inputs indexed by trial. `glob`'s own order and its wildcard characters inside the input path are not modelled.
- An exception raised while examining a candidate is not modelled separately. It is a candidate of unknown size, which never qualifies.
- Deleting the artifact and the decompressed file is one opaque event. Its failures, which the source ignores, are not modelled.
- CSV writing is not modelled: the header, timestamps, `flush`, and the always-empty `notes` column. The same goes for `print`, `argparse` and loading the JSON configuration.
- The rows carry a `trial` field that the CSV does not have. It names the combination and phase a row belongs to.
- `str.format` is modelled as named substitution of `{level}`, `{infile}` and `{outfile}` only. Brace escaping, format specifications and the `KeyError` on other names are not modelled.
- Orchestrator.DecompressBindings: the decompress template is formatted without `level` (runner.py:131). In Python a `{level}` in that template raises `KeyError` and aborts the whole run; the model copies `{level}` unchanged and carries on.
- A level is either an integer or a string. Other JSON values (floats, booleans, lists) and their `str` are not modelled.
- `random.choice` is a function from turn number to pattern position, given as input.
- `os.urandom(1024)` is the 1024-byte `block` input of `GenRealistic`.
- The generators' file writes are appends to a byte sequence, and the text is ASCII, so `.encode()` is byte-per-character.
- Generator `main` is not modelled beyond `size_bytes`: directory creation, paths and `print` are left out.
