/** `obfuscatorPlugin` and its `closeBundle` hook: resolve the options, collect the files,
    then run one `obscureFile` task per file through `paralleTask` with a limit of 3. */
module Plugin {
  import opened Text
  import opened Options
  import opened Exclusion
  import opened Collector
  import opened Task
  import opened Scheduler

  /** The concurrency limit `closeBundle` passes to `paralleTask`. */
  const ParallelLimit: nat := 3

  /** One status line: the file and how its task ended. */
  datatype Report = Report(path: string, outcome: Outcome)

  /** What one `closeBundle` call amounts to. `Aborted`: the walk threw, so the hook failed
      before any task ran. `Finished`: the collected files, the order in which their tasks
      settled (as indices into `files`), and the status lines in that order. */
  datatype BuildReport =
    | Aborted
    | Finished(files: seq<string>, settleOrder: seq<nat>, reports: seq<Report>)

  /** The status line the task for `path` ends with. */
  function ReportFor(path: string, config: Config, env: Environment): Report
  {
    Report(path, ObscureFile(path, config.obfuscatorOptions, env).outcome)
  }

  /** `closeBundle`. The root entry is what the file system holds at the resolved
      `rootDir`; the order in which in-flight tasks settle is chosen arbitrarily at each
      step, so the contract holds for every completion order. Every collected file is
      processed exactly once and gets the outcome of its own task, whatever the other
      tasks do: one file's failure neither stops nor changes any other. */
  method CloseBundle(options: Option<PluginOptions>, root: Entry, m: Matchers, env: Environment)
    returns (r: BuildReport)
    ensures r.Aborted? <==> !Readable(root)
    ensures r.Finished? ==>
              r.files == Collected(Resolve(options).rootDir, root, Resolve(options).exclude, m)
    ensures r.Finished? ==>
              |r.settleOrder| == |r.files| == |r.reports| && Distinct(r.settleOrder)
              && (forall k :: 0 <= k < |r.files| ==> k in r.settleOrder)
              && (forall j :: 0 <= j < |r.settleOrder| ==>
                    r.settleOrder[j] < |r.files|
                    && r.reports[j] == ReportFor(r.files[r.settleOrder[j]], Resolve(options), env))
  {
    var config := Resolve(options);
    var collector := new FileCollector(config.exclude, m);
    var ok := collector.GetFiles(config.rootDir, root);
    if !ok {
      return Aborted;
    }
    var files := collector.files;
    var order, reports, peak := RunToCompletion(files, ParallelLimit, path => ReportFor(path, config, env));
    r := Finished(files, order, reports);
  }
}
