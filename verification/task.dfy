/** `obscureFile`: read a file, obfuscate it, write the result back, and report one of
    three outcomes. The file system and the obfuscation library are abstract: each step
    either yields a value or fails (rejects or throws). */
module Task {
  import opened Text
  import opened Options

  /** The step results the task observes.
      `readFile(path)`: the text read, or None when `readFile` rejects.
      `obfuscate(content, options)`: the obfuscated code, or None when the library throws.
      `writeFile(path, code)`: whether `writeFile` resolves. */
  datatype Environment = Environment(
    readFile: string -> Option<string>,
    obfuscate: (string, ObfuscatorConfig) -> Option<string>,
    writeFile: (string, string) -> bool)

  /** The status line the spinner ends with: `succeed` with "obfuscated", `fail` with
      "obfuscated" (inner catch), or `fail` with "read file" (outer catch). */
  datatype Outcome = Obfuscated | WriteFailed | ReadFailed

  /** What one run of the task did: its outcome and the code it tried to write, if it got
      as far as the write. */
  datatype TaskRun = TaskRun(outcome: Outcome, attempted: Option<string>)

  /** The task body with its two nested `try` blocks. A throw from `obfuscate` happens
      inside the outer `try` and outside the inner one, so it is reported as "read file".
      The function is total: the task's promise never rejects. */
  function ObscureFile(path: string, config: ObfuscatorConfig, env: Environment): (r: TaskRun)
    ensures r.attempted.Some? <==>
              env.readFile(path).Some? && env.obfuscate(env.readFile(path).value, config).Some?
    ensures r.attempted.Some? ==>
              r.attempted.value == env.obfuscate(env.readFile(path).value, config).value
    ensures r.outcome == ReadFailed <==> r.attempted.None?
    ensures r.outcome == WriteFailed <==> r.attempted.Some? && !env.writeFile(path, r.attempted.value)
    ensures r.outcome == Obfuscated <==> r.attempted.Some? && env.writeFile(path, r.attempted.value)
  {
    match env.readFile(path)
    case None => TaskRun(ReadFailed, None)
    case Some(content) =>
      match env.obfuscate(content, config)
      case None => TaskRun(ReadFailed, None)
      case Some(code) =>
        if env.writeFile(path, code) then TaskRun(Obfuscated, Some(code))
        else TaskRun(WriteFailed, Some(code))
  }

  /** The file's content after the task, given its content before: it is replaced only
      when a write was attempted and `writeFile` resolved. A `writeFile` that rejects is
      taken to leave the file as it was. */
  function ContentAfter(path: string, before: string, run: TaskRun, env: Environment): string
  {
    if run.attempted.Some? && env.writeFile(path, run.attempted.value) then run.attempted.value
    else before
  }

  /** The reported outcome agrees with what happened to the file: after "read file" no
      write was attempted and the file is untouched; after the "obfuscated" failure the
      write rejected, so the file keeps its content; after success the file holds the
      obfuscation of what was read. */
  lemma FileChangesOnlyOnSuccess(path: string, config: ObfuscatorConfig, env: Environment, before: string)
    ensures var run := ObscureFile(path, config, env);
            (run.outcome == ReadFailed ==> run.attempted.None? && ContentAfter(path, before, run, env) == before)
            && (run.outcome == WriteFailed ==> ContentAfter(path, before, run, env) == before)
            && (run.outcome == Obfuscated ==>
                  env.readFile(path).Some?
                  && ContentAfter(path, before, run, env) == env.obfuscate(env.readFile(path).value, config).value)
  {
  }
}
