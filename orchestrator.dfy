/**
 * The benchmark matrix of the runner: every sample file is compressed with every
 * configured algorithm at every configured level, each successful compression
 * is decompressed again, and one CSV row is written per phase.
 *
 * Processes, the directory and the file sizes are an environment (`Env`) indexed
 * by the trial that consults them; the CSV writer is the output sequence of
 * events, a deletion of artifacts is one opaque `Remove` event.
 */
module Orchestrator {
  import opened Wrappers
  import opened Text
  import Monitor
  import Locator

  /** A file of the samples directory: its path, its base name and its size. */
  datatype Sample = Sample(path: string, name: string, size: nat)

  /** One entry of the configuration's `algorithms`; `levels` is `None` when the
      key is absent. */
  datatype Algorithm = Algorithm(
    name: string,
    levels: Option<seq<Option<Level>>>,
    compressCmd: string,
    decompressCmd: string,
    extensions: seq<string>)

  datatype Config = Config(algorithms: seq<Algorithm>, timeoutSeconds: Option<int>)

  /** Everything the matrix depends on besides the environment. */
  datatype Bench = Bench(cfg: Config, workDir: string, samples: seq<Sample>)

  /** The position of one combination in the matrix: sample, algorithm, level. */
  datatype Combo = Combo(si: nat, ai: nat, li: nat)

  datatype Phase = Compress | Decompress

  /** One run of one command. */
  datatype Trial = Trial(combo: Combo, phase: Phase)

  /** What the monitor observes of one run (see `Monitor`). */
  datatype Run = Run(start: int, steps: seq<Monitor.Iteration>, finish: Monitor.Finish)

  /** The world outside the runner: the run observed for each trial, the directory
      entries visible after each compression (none when absent), and the size of
      each path that exists after a trial. */
  datatype Env = Env(
    runs: imap<Trial, Run>,
    listings: imap<Combo, seq<Locator.Candidate>>,
    sizes: imap<(Trial, string), nat>)

  /** The entries `glob` sees after the compression of `c`. */
  function Listing(env: Env, c: Combo): seq<Locator.Candidate> {
    if c in env.listings then env.listings[c] else []
  }

  /** `os.path.getsize(path)` after trial `t`, when the path exists. */
  function SizeAfter(env: Env, t: Trial, path: string): Option<nat> {
    if (t, path) in env.sizes then Some(env.sizes[(t, path)]) else None
  }

  /** One CSV row: which trial, the sample, algorithm and level columns, the
      command, the monitor's result and the two size columns. */
  datatype Record = Record(
    trial: Trial,
    sample: string,
    algorithm: string,
    level: string,
    command: string,
    outcome: Monitor.Outcome,
    inputSize: nat,
    outputSize: Option<nat>)

  datatype Event = Row(record: Record) | Remove(paths: seq<string>)

  /** `timeout_seconds`, 300 when absent. */
  function Timeout(cfg: Config): (t: int)
    ensures cfg.timeoutSeconds == Some(t) || (cfg.timeoutSeconds.None? && t == 300)
  {
    if cfg.timeoutSeconds.Some? then cfg.timeoutSeconds.value else 300
  }

  /** `levels`, or the single missing level when the key is absent. */
  function LevelsOf(a: Algorithm): (ls: seq<Option<Level>>)
    ensures a.levels.Some? ==> ls == a.levels.value
    ensures a.levels.None? ==> ls == [None] && LevelString(ls[0]) == ""
  {
    if a.levels.Some? then a.levels.value else [None]
  }

  /** The number of levels each algorithm is run at. */
  function Widths(algorithms: seq<Algorithm>): (w: seq<nat>)
    ensures |w| == |algorithms|
    ensures forall ai :: 0 <= ai < |w| ==> w[ai] == |LevelsOf(algorithms[ai])|
  {
    if algorithms == [] then []
    else Widths(algorithms[..|algorithms| - 1]) + [|LevelsOf(algorithms[|algorithms| - 1])|]
  }

  /** Every run the environment holds ends (by exit, fault or timeout). */
  ghost predicate WellBehaved(env: Env, timeout: int) {
    forall t | t in env.runs :: Monitor.Terminates(env.runs[t].steps, env.runs[t].start, timeout)
  }

  /** Every run ends, and both phases of every combination of the matrix have a
      run. */
  ghost predicate Ready(b: Bench, env: Env) {
    WellBehaved(env, Timeout(b.cfg))
    && forall c | ValidCombo(b, c) :: Trial(c, Compress) in env.runs && Trial(c, Decompress) in env.runs
  }

  // ----- the enumeration order -----

  /** `c` comes before `d` in samples x algorithms x levels order. */
  predicate Before(c: Combo, d: Combo) {
    c.si < d.si || (c.si == d.si && (c.ai < d.ai || (c.ai == d.ai && c.li < d.li)))
  }

  predicate Ascending(cs: seq<Combo>) {
    forall i, j :: 0 <= i < j < |cs| ==> Before(cs[i], cs[j])
  }

  lemma AscendingAppend(p: seq<Combo>, q: seq<Combo>)
    requires Ascending(p) && Ascending(q)
    requires forall i, j :: 0 <= i < |p| && 0 <= j < |q| ==> Before(p[i], q[j])
    ensures Ascending(p + q)
  {
    forall i, j | 0 <= i < j < |p + q|
      ensures Before((p + q)[i], (p + q)[j])
    {
      if j < |p| {
        assert (p + q)[i] == p[i] && (p + q)[j] == p[j];
      } else if i < |p| {
        assert (p + q)[i] == p[i] && (p + q)[j] == q[j - |p|];
      } else {
        assert (p + q)[i] == q[i - |p|] && (p + q)[j] == q[j - |p|];
      }
    }
  }

  /** The combination lies in the matrix over the first `n` samples. */
  predicate InMatrix(c: Combo, n: nat, widths: seq<nat>) {
    c.si < n && c.ai < |widths| && c.li < widths[c.ai]
  }

  predicate ValidCombo(b: Bench, c: Combo) {
    InMatrix(c, |b.samples|, Widths(b.cfg.algorithms))
  }

  /** The combination lies among the first `m` algorithms of sample `si`. */
  predicate InAlgorithms(c: Combo, si: nat, widths: seq<nat>, m: nat)
    requires m <= |widths|
  {
    c.si == si && c.ai < m && c.li < widths[c.ai]
  }

  /** The combination lies among the first `n` levels of algorithm `ai` of sample
      `si`. */
  predicate InLevels(c: Combo, si: nat, ai: nat, n: nat) {
    c.si == si && c.ai == ai && c.li < n
  }

  // ----- the nested loops -----

  /** One of the three nested loops of the run, stopped after its first few
      iterations: the first `n` levels of algorithm `ai` for sample `si`, the
      first `m` algorithms for sample `si`, or the first `n` samples. */
  datatype Loop =
    | Levels(si: nat, ai: nat, n: nat)
    | Algorithms(si: nat, m: nat)
    | Samples(n: nat)

  predicate WithinAlgorithms(widths: seq<nat>, loop: Loop) {
    loop.Algorithms? ==> loop.m <= |widths|
  }

  function Depth(loop: Loop): nat {
    match loop
    case Levels(_, _, _) => 0
    case Algorithms(_, _) => 1
    case Samples(_) => 2
  }

  function Count(loop: Loop): nat {
    match loop
    case Levels(_, _, n) => n
    case Algorithms(_, m) => m
    case Samples(n) => n
  }

  /** The combinations `loop` visits, in order, when algorithm `ai` has
      `widths[ai]` levels. */
  function Visits(widths: seq<nat>, loop: Loop): seq<Combo>
    requires WithinAlgorithms(widths, loop)
    decreases Depth(loop), Count(loop)
  {
    match loop
    case Levels(si, ai, n) =>
      if n == 0 then [] else Visits(widths, Levels(si, ai, n - 1)) + [Combo(si, ai, n - 1)]
    case Algorithms(si, m) =>
      if m == 0 then []
      else Visits(widths, Algorithms(si, m - 1)) + Visits(widths, Levels(si, m - 1, widths[m - 1]))
    case Samples(n) =>
      if n == 0 then [] else Visits(widths, Samples(n - 1)) + Visits(widths, Algorithms(n - 1, |widths|))
  }

  /** The combinations of the whole run, in the order the loops visit them. */
  function Combos(b: Bench): seq<Combo> {
    Visits(Widths(b.cfg.algorithms), Samples(|b.samples|))
  }

  lemma {:induction false} MembersOfLevels(widths: seq<nat>, si: nat, ai: nat, n: nat, x: Combo)
    ensures x in Visits(widths, Levels(si, ai, n)) <==> InLevels(x, si, ai, n)
  {
    if n > 0 {
      MembersOfLevels(widths, si, ai, n - 1, x);
    }
  }

  lemma {:induction false} MembersOfAlgorithms(widths: seq<nat>, si: nat, m: nat, x: Combo)
    requires m <= |widths|
    ensures x in Visits(widths, Algorithms(si, m)) <==> InAlgorithms(x, si, widths, m)
  {
    if m > 0 {
      MembersOfAlgorithms(widths, si, m - 1, x);
      MembersOfLevels(widths, si, m - 1, widths[m - 1], x);
    }
  }

  lemma {:induction false} MembersOfSamples(widths: seq<nat>, n: nat, x: Combo)
    ensures x in Visits(widths, Samples(n)) <==> InMatrix(x, n, widths)
  {
    if n > 0 {
      MembersOfSamples(widths, n - 1, x);
      MembersOfAlgorithms(widths, n - 1, |widths|, x);
    }
  }

  lemma {:induction false} AscendingLevels(widths: seq<nat>, si: nat, ai: nat, n: nat)
    ensures var s := Visits(widths, Levels(si, ai, n));
      Ascending(s) && forall i :: 0 <= i < |s| ==> s[i].si == si && s[i].ai == ai && s[i].li < n
  {
    if n > 0 {
      AscendingLevels(widths, si, ai, n - 1);
      AscendingAppend(Visits(widths, Levels(si, ai, n - 1)), [Combo(si, ai, n - 1)]);
    }
  }

  lemma {:induction false} AscendingAlgorithms(widths: seq<nat>, si: nat, m: nat)
    requires m <= |widths|
    ensures var s := Visits(widths, Algorithms(si, m));
      Ascending(s) && forall i :: 0 <= i < |s| ==> s[i].si == si && s[i].ai < m
  {
    if m > 0 {
      AscendingAlgorithms(widths, si, m - 1);
      AscendingLevels(widths, si, m - 1, widths[m - 1]);
      AscendingAppend(Visits(widths, Algorithms(si, m - 1)), Visits(widths, Levels(si, m - 1, widths[m - 1])));
    }
  }

  lemma {:induction false} AscendingSamples(widths: seq<nat>, n: nat)
    ensures var s := Visits(widths, Samples(n));
      Ascending(s) && forall i :: 0 <= i < |s| ==> s[i].si < n
  {
    if n > 0 {
      AscendingSamples(widths, n - 1);
      AscendingAlgorithms(widths, n - 1, |widths|);
      AscendingAppend(Visits(widths, Samples(n - 1)), Visits(widths, Algorithms(n - 1, |widths|)));
    }
  }

  /** The nested loops visit every valid combination of sample, algorithm and
      level exactly once, in samples x algorithms x levels order. */
  lemma CombosEnumerate(b: Bench, x: Combo)
    ensures x in Combos(b) <==> ValidCombo(b, x)
    ensures Ascending(Combos(b))
  {
    MembersOfSamples(Widths(b.cfg.algorithms), |b.samples|, x);
    AscendingSamples(Widths(b.cfg.algorithms), |b.samples|);
  }

  // ----- what the loops yield -----

  /** What table `t` holds for combination `c`: nothing when `c` is not in it. */
  function At<T>(t: imap<Combo, seq<T>>, c: Combo): seq<T> {
    if c in t then t[c] else []
  }

  /** What the combinations `cs` yield, one after another, when combination `c`
      yields `At(t, c)`. */
  function Flat<T>(t: imap<Combo, seq<T>>, cs: seq<Combo>): seq<T> {
    if cs == [] then [] else Flat(t, cs[..|cs| - 1]) + At(t, cs[|cs| - 1])
  }

  lemma {:induction false} FlatAppend<T>(t: imap<Combo, seq<T>>, p: seq<Combo>, q: seq<Combo>)
    ensures Flat(t, p + q) == Flat(t, p) + Flat(t, q)
    decreases |q|
  {
    if q == [] {
      assert p + q == p;
    } else {
      assert (p + q)[..|p + q| - 1] == p + q[..|q| - 1];
      FlatAppend(t, p, q[..|q| - 1]);
    }
  }

  /** One more iteration of each loop appends what that iteration yields. */
  lemma LevelsStep<T>(t: imap<Combo, seq<T>>, widths: seq<nat>, si: nat, ai: nat, li: nat, done: seq<T>, next: seq<T>)
    requires done == Flat(t, Visits(widths, Levels(si, ai, li))) && next == At(t, Combo(si, ai, li))
    ensures done + next == Flat(t, Visits(widths, Levels(si, ai, li + 1)))
  {
    var c := Combo(si, ai, li);
    assert Visits(widths, Levels(si, ai, li + 1)) == Visits(widths, Levels(si, ai, li)) + [c];
    FlatAppend(t, Visits(widths, Levels(si, ai, li)), [c]);
    assert Flat(t, [c]) == At(t, c) by {
      assert [c][..0] == [];
    }
  }

  lemma AlgorithmsStep<T>(t: imap<Combo, seq<T>>, widths: seq<nat>, si: nat, ai: nat, done: seq<T>, next: seq<T>)
    requires ai < |widths|
    requires done == Flat(t, Visits(widths, Algorithms(si, ai)))
    requires next == Flat(t, Visits(widths, Levels(si, ai, widths[ai])))
    ensures done + next == Flat(t, Visits(widths, Algorithms(si, ai + 1)))
  {
    assert Visits(widths, Algorithms(si, ai + 1))
        == Visits(widths, Algorithms(si, ai)) + Visits(widths, Levels(si, ai, widths[ai]));
    FlatAppend(t, Visits(widths, Algorithms(si, ai)), Visits(widths, Levels(si, ai, widths[ai])));
  }

  lemma SamplesStep<T>(t: imap<Combo, seq<T>>, widths: seq<nat>, si: nat, done: seq<T>, next: seq<T>)
    requires done == Flat(t, Visits(widths, Samples(si)))
    requires next == Flat(t, Visits(widths, Algorithms(si, |widths|)))
    ensures done + next == Flat(t, Visits(widths, Samples(si + 1)))
  {
    assert Visits(widths, Samples(si + 1)) == Visits(widths, Samples(si)) + Visits(widths, Algorithms(si, |widths|));
    FlatAppend(t, Visits(widths, Samples(si)), Visits(widths, Algorithms(si, |widths|)));
  }

  /** Every combination yields itself. */
  ghost function Every(): imap<Combo, seq<Combo>> {
    imap c: Combo | true :: [c]
  }

  lemma {:induction false} FlatEvery(cs: seq<Combo>)
    ensures Flat(Every(), cs) == cs
  {
    if cs != [] {
      FlatEvery(cs[..|cs| - 1]);
      assert cs == cs[..|cs| - 1] + [cs[|cs| - 1]];
    }
  }

  /** Each combination yields either nothing or itself. */
  ghost predicate AtMostItself(t: imap<Combo, seq<Combo>>) {
    forall c :: At(t, c) == [] || At(t, c) == [c]
  }

  /** Such a table keeps exactly the combinations that yield themselves. */
  lemma {:induction false} MembersOfFlat(t: imap<Combo, seq<Combo>>, cs: seq<Combo>, x: Combo)
    requires AtMostItself(t)
    ensures x in Flat(t, cs) <==> x in cs && x in At(t, x)
  {
    if cs != [] {
      var c := cs[|cs| - 1];
      MembersOfFlat(t, cs[..|cs| - 1], x);
      assert cs == cs[..|cs| - 1] + [c];
      assert At(t, c) == [] || At(t, c) == [c];
    }
  }

  /** ... and keeps them in order. */
  lemma {:induction false} AscendingFlat(t: imap<Combo, seq<Combo>>, cs: seq<Combo>)
    requires AtMostItself(t) && Ascending(cs)
    ensures Ascending(Flat(t, cs))
  {
    if cs != [] {
      var init, c := cs[..|cs| - 1], cs[|cs| - 1];
      AscendingFlat(t, init);
      var p := Flat(t, init);
      forall i, j | 0 <= i < |p| && 0 <= j < |At(t, c)|
        ensures Before(p[i], At(t, c)[j])
      {
        MembersOfFlat(t, init, p[i]);
        var k :| 0 <= k < |init| && init[k] == p[i];
        assert cs[k] == p[i];
        assert At(t, c) == [c];
      }
      AscendingAppend(p, At(t, c));
    }
  }

  // ----- one combination -----

  function SampleOf(b: Bench, c: Combo): Sample
    requires ValidCombo(b, c)
  {
    b.samples[c.si]
  }

  function AlgorithmOf(b: Bench, c: Combo): Algorithm
    requires ValidCombo(b, c)
  {
    b.cfg.algorithms[c.ai]
  }

  function LevelStringOf(b: Bench, c: Combo): string
    requires ValidCombo(b, c)
  {
    LevelString(LevelsOf(AlgorithmOf(b, c))[c.li])
  }

  /** `os.path.join(dir, name)` for a relative `name`. */
  function JoinPath(dir: string, name: string): (r: string)
    ensures EndsWith(r, name) && StartsWith(r, dir)
    ensures |r| == |dir| + |name| + (if dir == [] || EndsWith(dir, "/") then 0 else 1)
    ensures dir != [] && !EndsWith(dir, "/") ==> r == dir + "/" + name
    ensures dir == [] || EndsWith(dir, "/") ==> r == dir + name
  {
    if dir == [] || dir[|dir| - 1] == '/' then dir + name else dir + "/" + name
  }

  /** The values the compress template is formatted with: the level string,
      the sample path, and the sample path with `.out` appended. */
  function CompressBindings(b: Bench, c: Combo): (bs: Bindings)
    requires ValidCombo(b, c)
    ensures Format("{level}", bs) == LevelStringOf(b, c)
    ensures Format("{infile}", bs) == SampleOf(b, c).path
    ensures Format("{outfile}", bs) == SampleOf(b, c).path + ".out"
  {
    var path := SampleOf(b, c).path;
    var bs := Bindings(Some(LevelStringOf(b, c)), path, path + ".out");
    FormatKeys(bs);
    bs
  }

  /** The compress template formatted with `CompressBindings`. */
  function CompressCommand(b: Bench, c: Combo): string
    requires ValidCombo(b, c)
  {
    Format(AlgorithmOf(b, c).compressCmd, CompressBindings(b, c))
  }

  /** The path passed as `outfile` to the decompress command: a file of the work
      directory named after the sample, the algorithm and the level. */
  function DecompressOutfile(b: Bench, c: Combo): (p: string)
    requires ValidCombo(b, c)
    ensures StartsWith(p, b.workDir)
    ensures EndsWith(p, "decompressed_" + SampleOf(b, c).name + "_" + AlgorithmOf(b, c).name + "_" + LevelStringOf(b, c))
  {
    JoinPath(b.workDir,
      "decompressed_" + SampleOf(b, c).name + "_" + AlgorithmOf(b, c).name + "_" + LevelStringOf(b, c))
  }

  /** The values the decompress template is formatted with: the artifact and the
      decompress output path, and no level. */
  function DecompressBindings(b: Bench, c: Combo, artifact: string): (bs: Bindings)
    requires ValidCombo(b, c)
    ensures Format("{infile}", bs) == artifact
    ensures Format("{outfile}", bs) == DecompressOutfile(b, c)
    ensures Format("{level}", bs) == "{level}"
  {
    var bs := Bindings(None, artifact, DecompressOutfile(b, c));
    FormatKeys(bs);
    bs
  }

  /** The decompress template formatted with `DecompressBindings`. */
  function DecompressCommand(b: Bench, c: Combo, artifact: string): string
    requires ValidCombo(b, c)
  {
    Format(AlgorithmOf(b, c).decompressCmd, DecompressBindings(b, c, artifact))
  }

  function Observe(env: Env, timeout: int, t: Trial): Monitor.Outcome
    requires WellBehaved(env, timeout) && t in env.runs
  {
    var r := env.runs[t];
    Monitor.Expected(r.start, timeout, r.steps, r.finish)
  }

  function CompressOutcome(b: Bench, env: Env, c: Combo): Monitor.Outcome
    requires ValidCombo(b, c) && Ready(b, env)
  {
    Observe(env, Timeout(b.cfg), Trial(c, Compress))
  }

  /** The artifact found after the compress run. */
  function Artifact(b: Bench, env: Env, c: Combo): Option<string>
    requires ValidCombo(b, c)
  {
    var infile := SampleOf(b, c).path;
    Locator.Located(Locator.Glob(Listing(env, c), infile), infile, AlgorithmOf(b, c).extensions)
  }

  /** The combination goes on to decompression: the compress status is
      `finished` and an artifact was found. */
  predicate Proceeds(b: Bench, env: Env, c: Combo)
    requires ValidCombo(b, c) && Ready(b, env)
  {
    CompressOutcome(b, env, c).Finished? && Artifact(b, env, c).Some?
  }

  function CompressRecord(b: Bench, env: Env, c: Combo): Record
    requires ValidCombo(b, c) && Ready(b, env)
  {
    var t := Trial(c, Compress);
    var artifact := Artifact(b, env, c);
    Record(t, SampleOf(b, c).name, AlgorithmOf(b, c).name, LevelStringOf(b, c), CompressCommand(b, c),
      CompressOutcome(b, env, c), SampleOf(b, c).size,
      if artifact.Some? then SizeAfter(env, t, artifact.value) else None)
  }

  /** The output path the decompress command redirects to, or empty. */
  function DecompressTarget(b: Bench, env: Env, c: Combo): string
    requires ValidCombo(b, c) && Ready(b, env) && Proceeds(b, env, c)
  {
    RedirectTarget(DecompressCommand(b, c, Artifact(b, env, c).value))
  }

  function DecompressRecord(b: Bench, env: Env, c: Combo): Record
    requires ValidCombo(b, c) && Ready(b, env) && Proceeds(b, env, c)
  {
    var t := Trial(c, Decompress);
    var target := DecompressTarget(b, env, c);
    Record(t, SampleOf(b, c).name, AlgorithmOf(b, c).name, LevelStringOf(b, c),
      DecompressCommand(b, c, Artifact(b, env, c).value), Observe(env, Timeout(b.cfg), t), SampleOf(b, c).size,
      if target != [] then SizeAfter(env, t, target) else None)
  }

  /** The files deleted after decompression: the artifact and, when the command
      redirects, the decompressed file. */
  function Removed(b: Bench, env: Env, c: Combo): seq<string>
    requires ValidCombo(b, c) && Ready(b, env) && Proceeds(b, env, c)
  {
    var target := DecompressTarget(b, env, c);
    [Artifact(b, env, c).value] + (if target != [] then [target] else [])
  }

  /** The rows and deletions one combination contributes. */
  function ComboEvents(b: Bench, env: Env, c: Combo): seq<Event>
    requires ValidCombo(b, c) && Ready(b, env)
  {
    if !Proceeds(b, env, c) then [Row(CompressRecord(b, env, c))]
    else [Row(CompressRecord(b, env, c)), Row(DecompressRecord(b, env, c)), Remove(Removed(b, env, c))]
  }

  /** `ComboEvents` for one configuration and environment, for every valid
      combination. */
  ghost function PerCombo(b: Bench, env: Env): imap<Combo, seq<Event>>
    requires Ready(b, env)
  {
    imap c | ValidCombo(b, c) :: ComboEvents(b, env, c)
  }

  /** The events of the whole run: nothing when there are no samples. */
  ghost function MatrixEvents(b: Bench, env: Env): seq<Event>
    requires Ready(b, env)
  {
    Flat(PerCombo(b, env), Combos(b))
  }

  // ----- the runner -----

  /** The compress phase: run the formatted command, then look for the artifact
      among the entries that extend the input path. */
  method RunCompress(b: Bench, env: Env, c: Combo) returns (row: Record, compressedPath: Option<string>)
    requires ValidCombo(b, c) && Ready(b, env)
    ensures row == CompressRecord(b, env, c)
    ensures compressedPath == Artifact(b, env, c)
  {
    var sample := b.samples[c.si];
    var algo := b.cfg.algorithms[c.ai];
    var infile := sample.path;
    var levelStr := LevelStringOf(b, c);
    var compCmd := CompressCommand(b, c);
    var t := Trial(c, Compress);
    var run := env.runs[t];
    var compRes := Monitor.RunAndMonitor(run.start, Timeout(b.cfg), run.steps, run.finish);
    var candidates := Locator.Glob(Listing(env, c), infile);
    compressedPath := Locator.SelectArtifact(infile, algo.extensions, candidates);
    var outfileSize := if compressedPath.Some? then SizeAfter(env, t, compressedPath.value) else None;
    row := Record(t, sample.name, algo.name, levelStr, compCmd, compRes, sample.size, outfileSize);
  }

  /** The decompress phase: run the formatted command on the artifact and measure
      the file the command redirects to. */
  method RunDecompress(b: Bench, env: Env, c: Combo, compressedPath: string)
    returns (row: Record, decOutfile: string)
    requires ValidCombo(b, c) && Ready(b, env) && Proceeds(b, env, c)
    requires compressedPath == Artifact(b, env, c).value
    ensures row == DecompressRecord(b, env, c)
    ensures decOutfile == DecompressTarget(b, env, c)
  {
    var sample := b.samples[c.si];
    var algo := b.cfg.algorithms[c.ai];
    var levelStr := LevelStringOf(b, c);
    var decCmd := DecompressCommand(b, c, compressedPath);
    var t := Trial(c, Decompress);
    var run := env.runs[t];
    var decRes := Monitor.RunAndMonitor(run.start, Timeout(b.cfg), run.steps, run.finish);
    decOutfile := RedirectTarget(decCmd);
    var decOutSize := if decOutfile != [] then SizeAfter(env, t, decOutfile) else None;
    row := Record(t, sample.name, algo.name, levelStr, decCmd, decRes, sample.size, decOutSize);
  }

  /** One combination: the compress row; then, only after a finished compression
      that left an artifact, the decompress row and the deletion of both outputs. */
  method RunCombination(b: Bench, env: Env, c: Combo) returns (events: seq<Event>)
    requires ValidCombo(b, c) && Ready(b, env)
    ensures events == ComboEvents(b, env, c)
  {
    var compRow, compressedPath := RunCompress(b, env, c);
    events := [Row(compRow)];
    if !compRow.outcome.Finished? {
      return;
    }
    if compressedPath.None? {
      return;
    }
    var decRow, decOutfile := RunDecompress(b, env, c, compressedPath.value);
    var removed := [compressedPath.value] + (if decOutfile != [] then [decOutfile] else []);
    events := [Row(compRow), Row(decRow), Remove(removed)];
  }

  /** Table `t` holds the events of every valid combination. The loops below are
      verified against such a table rather than against `PerCombo` itself. */
  ghost predicate Tabulates(b: Bench, env: Env, t: imap<Combo, seq<Event>>) {
    Ready(b, env)
    && forall c {:trigger ComboEvents(b, env, c)} :: ValidCombo(b, c) ==> At(t, c) == ComboEvents(b, env, c)
  }

  lemma PerComboTabulates(b: Bench, env: Env)
    requires Ready(b, env)
    ensures Tabulates(b, env, PerCombo(b, env))
  {
  }

  /** One combination as the loops see it: the block table `t` holds for it. */
  method RunTabulated(b: Bench, env: Env, c: Combo, ghost t: imap<Combo, seq<Event>>) returns (events: seq<Event>)
    requires ValidCombo(b, c) && Tabulates(b, env, t)
    ensures events == At(t, c)
  {
    events := RunCombination(b, env, c);
  }

  /** The levels loop: every level of algorithm `ai`, for sample `si`. */
  method RunLevels(b: Bench, env: Env, si: nat, ai: nat, ghost t: imap<Combo, seq<Event>>) returns (events: seq<Event>)
    requires si < |b.samples| && ai < |b.cfg.algorithms| && Tabulates(b, env, t)
    ensures events == Flat(t, Visits(Widths(b.cfg.algorithms), Levels(si, ai, Widths(b.cfg.algorithms)[ai])))
  {
    ghost var widths := Widths(b.cfg.algorithms);
    var levels := LevelsOf(b.cfg.algorithms[ai]);
    events := [];
    for li := 0 to |levels|
      invariant events == Flat(t, Visits(widths, Levels(si, ai, li)))
    {
      var more := RunTabulated(b, env, Combo(si, ai, li), t);
      LevelsStep(t, widths, si, ai, li, events, more);
      events := events + more;
    }
  }

  /** The algorithms loop: every algorithm and level, for sample `si`. */
  method RunAlgorithms(b: Bench, env: Env, si: nat, ghost t: imap<Combo, seq<Event>>) returns (events: seq<Event>)
    requires si < |b.samples| && Tabulates(b, env, t)
    ensures events == Flat(t, Visits(Widths(b.cfg.algorithms), Algorithms(si, |Widths(b.cfg.algorithms)|)))
  {
    ghost var widths := Widths(b.cfg.algorithms);
    var algorithms := b.cfg.algorithms;
    events := [];
    for ai := 0 to |algorithms|
      invariant |widths| == |algorithms|
      invariant events == Flat(t, Visits(widths, Algorithms(si, ai)))
    {
      var more := RunLevels(b, env, si, ai, t);
      AlgorithmsStep(t, widths, si, ai, events, more);
      events := events + more;
    }
  }

  /** The samples loop: every sample, algorithm and level. */
  method RunSamples(b: Bench, env: Env, ghost t: imap<Combo, seq<Event>>) returns (events: seq<Event>)
    requires Tabulates(b, env, t)
    ensures events == Flat(t, Visits(Widths(b.cfg.algorithms), Samples(|b.samples|)))
  {
    ghost var widths := Widths(b.cfg.algorithms);
    events := [];
    for si := 0 to |b.samples|
      invariant events == Flat(t, Visits(widths, Samples(si)))
    {
      var more := RunAlgorithms(b, env, si, t);
      SamplesStep(t, widths, si, events, more);
      events := events + more;
    }
  }

  /** The whole run: a usage error, and no output, when the samples directory is
      empty; otherwise the samples loop. */
  method RunMatrix(b: Bench, env: Env) returns (usageError: bool, events: seq<Event>)
    requires Ready(b, env)
    ensures usageError <==> b.samples == []
    ensures events == MatrixEvents(b, env)
  {
    if b.samples == [] {
      NoSamplesNoEvents(b, env);
      return true, [];
    }
    usageError := false;
    PerComboTabulates(b, env);
    events := RunSamples(b, env, PerCombo(b, env));
  }

  // ----- properties of the event sequence -----

  /** The combinations of the rows of phase `ph`, in output order. */
  function PhaseCombos(events: seq<Event>, ph: Phase): seq<Combo> {
    if events == [] then []
    else
      var e := events[|events| - 1];
      PhaseCombos(events[..|events| - 1], ph)
        + (if e.Row? && e.record.trial.phase == ph then [e.record.trial.combo] else [])
  }

  lemma {:induction false} PhaseCombosAppend(p: seq<Event>, q: seq<Event>, ph: Phase)
    ensures PhaseCombos(p + q, ph) == PhaseCombos(p, ph) + PhaseCombos(q, ph)
    decreases |q|
  {
    if q == [] {
      assert p + q == p;
    } else {
      assert (p + q)[..|p + q| - 1] == p + q[..|q| - 1];
      PhaseCombosAppend(p, q[..|q| - 1], ph);
    }
  }

  /** When the block of each combination in `cs` has the rows of phase `ph` that
      `u` holds for it, their blocks together have the rows `u` yields for `cs`. */
  lemma {:induction false} PhaseFlat(t: imap<Combo, seq<Event>>, u: imap<Combo, seq<Combo>>, ph: Phase, cs: seq<Combo>)
    requires forall i :: 0 <= i < |cs| ==> PhaseCombos(At(t, cs[i]), ph) == At(u, cs[i])
    ensures PhaseCombos(Flat(t, cs), ph) == Flat(u, cs)
  {
    if cs != [] {
      var init, c := cs[..|cs| - 1], cs[|cs| - 1];
      PhaseFlat(t, u, ph, init);
      PhaseCombosAppend(Flat(t, init), At(t, c), ph);
    }
  }

  predicate IsPhaseRow(e: Event, ph: Phase) {
    e.Row? && e.record.trial.phase == ph
  }

  /** Two consecutive events: a decompress row comes right after the finished
      compress row of its own combination, and a deletion comes right after a
      decompress row and nowhere else. */
  predicate Adjacent(e: Event, next: Event) {
    (IsPhaseRow(next, Decompress) ==>
      e.Row? && e.record.trial == Trial(next.record.trial.combo, Compress) && e.record.outcome.Finished?)
    && (IsPhaseRow(e, Decompress) <==> next.Remove?)
  }

  /** The local shape of the output: consecutive events are `Adjacent`, and the
      output neither starts with a decompress row or a deletion nor ends with a
      decompress row. */
  ghost predicate PhaseOrder(events: seq<Event>) {
    (forall i, j :: 0 <= i < j < |events| && j == i + 1 ==> Adjacent(events[i], events[j]))
    && (events != [] ==>
          !IsPhaseRow(events[0], Decompress) && !events[0].Remove?
          && !IsPhaseRow(events[|events| - 1], Decompress))
  }

  /** The block of a combination that went on to decompression: its finished
      compress row, its decompress row and a deletion. */
  predicate Triple(c: Event, d: Event, rm: Event) {
    IsPhaseRow(c, Compress) && c.record.outcome.Finished?
    && IsPhaseRow(d, Decompress) && d.record.trial.combo == c.record.trial.combo
    && rm.Remove?
  }

  /** The events are whole blocks, one after another: a compress row alone, or a
      `Triple`. */
  ghost predicate Blocks(events: seq<Event>)
    decreases |events|
  {
    var n := |events|;
    events == []
    || (IsPhaseRow(events[n - 1], Compress) && Blocks(events[..n - 1]))
    || (n >= 3 && Triple(events[n - 3], events[n - 2], events[n - 1]) && Blocks(events[..n - 3]))
  }

  /** The events of one combination form one block. */
  predicate Block(ev: seq<Event>) {
    (|ev| == 1 && IsPhaseRow(ev[0], Compress))
    || (|ev| == 3 && Triple(ev[0], ev[1], ev[2]))
  }

  lemma BlocksExtend(p: seq<Event>, q: seq<Event>)
    requires Blocks(p) && Block(q)
    ensures Blocks(p + q)
  {
    var s := p + q;
    if |q| == 1 {
      assert s[..|s| - 1] == p && s[|s| - 1] == q[0];
    } else {
      assert s[..|s| - 3] == p;
      assert s[|s| - 3] == q[0] && s[|s| - 2] == q[1] && s[|s| - 1] == q[2];
    }
  }

  lemma PhaseOrderAppend(p: seq<Event>, q: seq<Event>)
    requires PhaseOrder(p) && PhaseOrder(q)
    requires q == [] || IsPhaseRow(q[0], Compress)
    ensures PhaseOrder(p + q)
  {
    var s := p + q;
    forall i, j | 0 <= i < j < |s| && j == i + 1
      ensures Adjacent(s[i], s[j])
    {
      if j < |p| {
        assert s[i] == p[i] && s[j] == p[j];
      } else if i >= |p| {
        assert s[i] == q[i - |p|] && s[j] == q[j - |p|];
      } else {
        assert s[i] == p[|p| - 1] && s[j] == q[0];
      }
    }
    if p == [] { assert s == q; } else { assert s[0] == p[0]; }
    if q == [] { assert s == p; } else { assert s[|s| - 1] == q[|q| - 1]; }
  }

  /** Whole blocks are in phase order. */
  lemma {:induction false} BlocksInOrder(events: seq<Event>)
    requires Blocks(events)
    ensures PhaseOrder(events)
    decreases |events|
  {
    var n := |events|;
    if events == [] {
    } else if IsPhaseRow(events[n - 1], Compress) && Blocks(events[..n - 1]) {
      var init, c := events[..n - 1], events[n - 1];
      BlocksInOrder(init);
      assert PhaseOrder([c]);
      PhaseOrderAppend(init, [c]);
      assert events == init + [c];
    } else {
      var init, block := events[..n - 3], events[n - 3..];
      BlocksInOrder(init);
      assert block[0] == events[n - 3] && block[1] == events[n - 2] && block[2] == events[n - 1];
      forall i, j | 0 <= i < j < |block| && j == i + 1
        ensures Adjacent(block[i], block[j])
      {
      }
      PhaseOrderAppend(init, block);
      assert events == init + block;
    }
  }

  lemma {:induction false} BlocksFlat(t: imap<Combo, seq<Event>>, cs: seq<Combo>)
    requires forall i :: 0 <= i < |cs| ==> Block(At(t, cs[i]))
    ensures Blocks(Flat(t, cs))
  {
    if cs != [] {
      var init, c := cs[..|cs| - 1], cs[|cs| - 1];
      BlocksFlat(t, init);
      BlocksExtend(Flat(t, init), At(t, c));
    }
  }

  /** The shape of a block of three: compress row, decompress row, deletion. */
  lemma ProceedingBlock(r: Record, d: Record, paths: seq<string>, c: Combo)
    requires r.trial == Trial(c, Compress) && r.outcome.Finished? && d.trial == Trial(c, Decompress)
    ensures var ev := [Row(r), Row(d), Remove(paths)];
            PhaseCombos(ev, Compress) == [c] && PhaseCombos(ev, Decompress) == [c] && Block(ev)
  {
    var ev := [Row(r), Row(d), Remove(paths)];
    assert [Row(r)][..0] == [] && [Row(d)][..0] == [] && [Remove(paths)][..0] == [];
    assert [Row(r), Row(d)] == [Row(r)] + [Row(d)] && ev == [Row(r), Row(d)] + [Remove(paths)];
    PhaseCombosAppend([Row(r)], [Row(d)], Compress);
    PhaseCombosAppend([Row(r)], [Row(d)], Decompress);
    PhaseCombosAppend([Row(r), Row(d)], [Remove(paths)], Compress);
    PhaseCombosAppend([Row(r), Row(d)], [Remove(paths)], Decompress);
    assert ev[..0] == [];
  }

  /** The shape of a block holding only the compress row. */
  lemma StoppedBlock(r: Record, c: Combo)
    requires r.trial == Trial(c, Compress)
    ensures PhaseCombos([Row(r)], Compress) == [c] && PhaseCombos([Row(r)], Decompress) == []
    ensures Block([Row(r)])
  {
    assert [Row(r)][..0] == [];
  }

  /** The combinations that go on to decompression, each yielding itself. */
  ghost function Proceeding(b: Bench, env: Env): imap<Combo, seq<Combo>>
    requires Ready(b, env)
  {
    imap c | ValidCombo(b, c) && Proceeds(b, env, c) :: [c]
  }

  /** The block of one combination: its compress row first, a decompress row
      exactly when it proceeds, and the local phase order. */
  lemma ComboEventsShape(b: Bench, env: Env, c: Combo)
    requires ValidCombo(b, c) && Ready(b, env)
    ensures var ev := ComboEvents(b, env, c);
            ev != [] && Block(ev)
            && PhaseCombos(ev, Compress) == [c]
            && PhaseCombos(ev, Decompress) == (if Proceeds(b, env, c) then [c] else [])
  {
    var r := CompressRecord(b, env, c);
    assert r.trial == Trial(c, Compress) && r.outcome == CompressOutcome(b, env, c);
    if Proceeds(b, env, c) {
      ProceedingBlock(r, DecompressRecord(b, env, c), Removed(b, env, c), c);
    } else {
      StoppedBlock(r, c);
    }
  }

  /** One compress row per combination, in the order the loops visit them: the
      valid combinations, each once, in samples x algorithms x levels order. */
  lemma MatrixCompressRows(b: Bench, env: Env, x: Combo)
    requires Ready(b, env)
    ensures PhaseCombos(MatrixEvents(b, env), Compress) == Combos(b)
    ensures Ascending(Combos(b)) && (x in Combos(b) <==> ValidCombo(b, x))
  {
    var t, cs := PerCombo(b, env), Combos(b);
    forall i | 0 <= i < |cs|
      ensures PhaseCombos(At(t, cs[i]), Compress) == At(Every(), cs[i])
    {
      CombosEnumerate(b, cs[i]);
      ComboEventsShape(b, env, cs[i]);
    }
    PhaseFlat(t, Every(), Compress, cs);
    FlatEvery(cs);
    CombosEnumerate(b, x);
  }

  /** A decompress row exactly for the combinations whose compression finished
      and left an artifact, in the order the loops visit them. */
  lemma MatrixDecompressRows(b: Bench, env: Env, x: Combo)
    requires Ready(b, env)
    ensures var ds := PhaseCombos(MatrixEvents(b, env), Decompress);
            ds == Flat(Proceeding(b, env), Combos(b))
            && Ascending(ds)
            && (x in ds <==> ValidCombo(b, x) && Proceeds(b, env, x))
  {
    var t, u, cs := PerCombo(b, env), Proceeding(b, env), Combos(b);
    forall i | 0 <= i < |cs|
      ensures PhaseCombos(At(t, cs[i]), Decompress) == At(u, cs[i])
    {
      CombosEnumerate(b, cs[i]);
      ComboEventsShape(b, env, cs[i]);
    }
    PhaseFlat(t, u, Decompress, cs);
    assert AtMostItself(u);
    CombosEnumerate(b, x);
    MembersOfFlat(u, cs, x);
    AscendingFlat(u, cs);
  }

  /** Every decompress row comes right after the finished compress row of its own
      combination and right before a deletion; every deletion comes right after
      a decompress row. */
  lemma MatrixPhaseOrder(b: Bench, env: Env)
    requires Ready(b, env)
    ensures Blocks(MatrixEvents(b, env)) && PhaseOrder(MatrixEvents(b, env))
  {
    var t, cs := PerCombo(b, env), Combos(b);
    forall i | 0 <= i < |cs|
      ensures Block(At(t, cs[i]))
    {
      CombosEnumerate(b, cs[i]);
      ComboEventsShape(b, env, cs[i]);
    }
    BlocksFlat(t, cs);
    BlocksInOrder(MatrixEvents(b, env));
  }

  /** Without samples nothing is run or written. */
  lemma NoSamplesNoEvents(b: Bench, env: Env)
    requires Ready(b, env) && b.samples == []
    ensures MatrixEvents(b, env) == []
  {
  }

  /** The size measured after decompression is that of the decompressed file when
      the decompress template ends in a redirection to `{outfile}`. */
  lemma DecompressSizeMeasuresOutfile(b: Bench, c: Combo, artifact: string, pre: string)
    requires ValidCombo(b, c)
    requires AlgorithmOf(b, c).decompressCmd == pre + "> {outfile}"
    requires '>' !in DecompressOutfile(b, c) && Stripped(DecompressOutfile(b, c))
    ensures RedirectTarget(DecompressCommand(b, c, artifact)) == DecompressOutfile(b, c)
  {
    var out := DecompressOutfile(b, c);
    var bs := DecompressBindings(b, c, artifact);
    var head := Format(pre, bs);
    FormatRedirect(pre, bs);
    RedirectTargetOfRedirect(head, " ", out);
    SplitRedirect(head, out);
  }

  lemma SplitRedirect(head: string, target: string)
    ensures head + "> " + target == head + ">" + " " + target
  {
    assert "> " == ">" + " ";
  }
}
