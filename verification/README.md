# vite-plugin-obfuscator-ts, modelled in Dafny

`obfuscatorPlugin` is a Vite plugin. After a build, its `closeBundle` hook walks the
output directory (`dist/assets` by default). It collects every `.js` file that no
exclusion rule matches. Then it obfuscates those files in place, at most three at a time.
This project models that hook and proves what it promises:

- `text.dfy` (module `Text`): `String.prototype.includes` and `endsWith` over `seq<char>`.
- `options.dfy` (module `Options`): the plugin options and their `||` defaulting.
- `exclusion.dfy` (module `Exclusion`): the exclusion test `exclude.some(...)`.
  Glob matching (`minimatch`) and `RegExp.test` are the two functions of a `Matchers` value.
- `collector.dfy` (module `Collector`): `getFiles`, the depth-first walk.
  The file system is an abstract tree (`Entry`: file, directory with an ordered listing,
  or unreadable). The walk is a class whose `files` field is the array it appends to.
  Reference definitions of "the tree's files in pre-order" and "a file exists at p" are
  proved to agree with it.
- `task.dfy` (module `Task`): `obscureFile`. A total function from the results of the
  read, obfuscate and write steps to one of three status outcomes.
- `scheduler.dfy` (module `Scheduler`): `paralleTask`. A class over `nextIndex` and
  `finishCount`. It also records the in-flight set, the settled set, the claim log, the
  settlement log and how often `resolve()` ran. `Settle(i)` is the `.then` callback of
  task `i`. The environment picks which in-flight task settles next; that choice is the
  only nondeterminism.
- `plugin.dfy` (module `Plugin`): `closeBundle`. It resolves the options, collects the
  files, and runs one task per file with limit 3.

A throw from `JavascriptObfuscator.obfuscate` (src/index.ts:136-139) happens inside the
outer `try` but outside the inner one. So it is reported as a "read file" failure, not as
a write failure. `Task.ObscureFile` follows this.

## Model

| member | source | states |
|---|---|---|
| `Text.EndsWith` | src/index.ts:162 | `path.endsWith(".js")` holds exactly when the path is some prefix followed by the suffix |
| `Text.Includes` | src/index.ts:165 | `path.includes(pattern)` holds exactly when the pattern occurs at some position of the path; the empty pattern occurs everywhere |
| `Options.Resolve` | src/index.ts:58-68 | with no argument, the defaults `dist/assets`, `[]` and the built-in preset apply; otherwise each field keeps the caller's value unless it is absent (or, for `rootDir`, the empty string), in which case the default applies; the resolved root directory is never empty |
| `Options.OmittedEqualsEmpty` | src/index.ts:58-68 | calling the plugin with no argument and with `{}` gives the same settings |
| `Options.ResolveIdempotent` | src/index.ts:65-68 | feeding resolved settings back in as options changes nothing |
| `Exclusion.IsExcluded` | src/index.ts:163-169 | a path is excluded exactly when some rule matches it, so an empty rule list excludes nothing; a string rule matches by containment or else by glob, a regular-expression rule by its test |
| `Exclusion.LiteralSubstringExcludes` | src/index.ts:164-166 | a string rule that occurs in the path excludes it, whatever the glob library answers |
| `Exclusion.ExcludedByAppend` | src/index.ts:163-169 | excluding by two rule lists joined is excluding by either one: adding rules only adds exclusions, and rule order does not matter |
| `Collector.CollectedIsFilteredFiles` | src/index.ts:159-181 | the walk yields exactly the `.js`, non-excluded paths of the tree's full depth-first pre-order listing, in that order |
| `Collector.CollectedListIsFilteredFiles` | src/index.ts:177-180 | the same for the entries of one directory listing, taken in listing order |
| `Collector.CollectedMembers` | src/index.ts:159-181 | a path is collected exactly when the tree has a regular file there, the path ends in `.js`, and no rule excludes it; a non-`.js` file is never collected |
| `Collector.StringRuleExample` | src/index.ts:162-172 | for `a/b.js`, `a/c.js` and `a/style.css` with the string rule `b.js`, the walk yields exactly `["a/c.js"]` |
| `Collector.FileCollector.constructor` | src/index.ts:74 | the `files` array starts empty |
| `Collector.FileCollector.GetFiles` | src/index.ts:159-181 | succeeds exactly when no file-system call on the way throws; on success it appends exactly the collected paths, in walk order; it only ever appends |
| `Task.ObscureFile` | src/index.ts:129-157 | a write is attempted only after both the read and the obfuscation succeed, and it carries the obfuscated code; a read failure or an obfuscation throw gives "read file"; a failed write gives the "obfuscated" failure; otherwise success; it never rejects, given that the lines before the outer `try` do not throw |
| `Task.FileChangesOnlyOnSuccess` | src/index.ts:134-156 | the file's new content follows the write's own result: after "read file" no write was attempted and the file is untouched; after the "obfuscated" failure the write rejected and the file keeps its content; after success it holds the obfuscation of what was read |
| `Scheduler.Scheduler.constructor` | src/index.ts:91-121 | an empty task list resolves at once and starts nothing; otherwise exactly `min(limit, N)` tasks are claimed, indices `0 .. k-1` in order, nothing has settled, and the promise is not yet resolved |
| `Scheduler.Scheduler.Run` | src/index.ts:99-101 | claims `tasks[nextIndex]`, puts it in flight and moves the cursor on by one; nothing else changes |
| `Scheduler.Scheduler.Settle` | src/index.ts:102-110 | the fulfilment of task `i`'s promise: `finishCount` goes up by one; a replacement is claimed if and only if tasks remain; `resolve()` is called exactly when the last task settles; the invariant `Valid` is kept |
| `Scheduler.RefillKeepsPoolFull` | src/index.ts:103-106 | after a settlement the in-flight count is still `min(limit, N - finishCount)`, with or without a replacement |
| `Scheduler.ClaimsAreOrdered` | src/index.ts:99-101 | claimed indices are strictly increasing and below N, so no task is claimed twice and the cursor never passes N |
| `Scheduler.InFlightBounded` | src/index.ts:97-121 | `0 <= finishCount <= nextIndex <= N` and never more than `min(limit, N)` tasks are in flight |
| `Scheduler.CompletionIsExact` | src/index.ts:103-109 | the promise is resolved exactly when `finishCount == N`; then every index below N was claimed once and settled once, and nothing is in flight |
| `Scheduler.NoStallWithPositiveLimit` | src/index.ts:113-121 | with a limit of at least 1, some task is in flight until the promise resolves, so the run cannot hang |
| `Scheduler.RunToCompletion` | src/index.ts:87-123 | for every order of settlements, every task settles exactly once, each result is that task's own, and the most tasks in flight at once is `min(limit, N)` |
| `Plugin.CloseBundle` | src/index.ts:73-85 | the hook aborts exactly when the walk throws; otherwise it processes exactly the collected files, each exactly once, and each file's status line is its own task's outcome, whatever the other tasks do |

## Left out

- File-system I/O (`readFile`, `writeFile`, `statSync`, `readdirSync`) is not executed. The file tree and each step's result are parameters: an `Entry` tree, and the `Environment` functions that give each read, obfuscation and write result.
- `resolve(process.cwd(), …)` is not modelled. `normalize(join(dir, name))` is modelled as `dir + "/" + name`, and `normalize(rootDir)` as the identity. Collapsing `.`, `..` and repeated separators is not modelled.
- The obfuscation library and its default option preset are not modelled. The transform is a function that may fail (a throw). The preset is the single value `DefaultPreset`, and caller options are opaque key/value pairs.
- `minimatch` glob semantics and JavaScript regular-expression semantics are not modelled. Both are parameters. A `RegExp` with the `g` or `y` flag keeps state in `lastIndex` between `test` calls; the model treats `test` as a pure function.
- The Promise and event-loop machinery is not modelled. Each task's settlement is one `Settle` event, and the choice of which in-flight task settles next is arbitrary. The file steps of concurrently running tasks are not interleaved: each task's results depend only on its own path.
- Presentation is not modelled: `ora` spinners, `chalk` colours, the display path `path.split(rootDir)[1]`, and the `Date.now` timing with its `toFixed(2)` elapsed-time line. Only the category of each status line is kept (`Outcome`).
- The Vite `Plugin` object (`name`, `apply: "build"`, hook registration) is not modelled. `build.config.ts` holds build settings only and is not part of this model.
- Partial writes are not modelled. A write either resolves (and the file holds the new code) or rejects (and the file is unchanged).
- `Task.FileChangesOnlyOnSuccess`: for the "obfuscated" failure it claims the file is unchanged, which the source does not promise. `writeFile` (src/index.ts:141) opens the file with flag `'w'`, which empties it, so a write that rejects after the open (a full disk, an I/O error) may leave the file empty or half-written. The model assumes a rejected `writeFile` does not touch the file.
- `Scheduler.Scheduler`: the limit is a `nat`. A negative `paralleCount` behaves like 0 in the source: it launches nothing. A limit of 0 on a non-empty list is in the constructor's contract: nothing is claimed or in flight, the promise stays unresolved, and `Settle` can never be called.
- `Collector.FileCollector.GetFiles`: when a file-system call throws, the contract says only that `files` was appended to, not with what. The exception ends the hook, so that partial array is never used.
- The hook's return is not modelled. `closeBundle` (src/index.ts:73-85) does not return the promise of `paralleTask`, so the host does not wait: only the walk and the first `min(3, N)` claims happen before the hook returns. `Plugin.CloseBundle` describes the whole run, up to the last settlement.
- `obfuscationResult.getObfuscatedCode()` (src/index.ts:141) is folded into the obfuscation step. It runs inside the inner `try`, so a throw from it would give the "obfuscated" failure rather than "read file"; the getter does not throw, and the model does not separate it.
- Rejected tasks are not modelled. `Scheduler.Scheduler.Settle` stands for a task's promise being fulfilled. `.then` (src/index.ts:102) has no rejection handler, so a rejecting task would never be counted and the promise would never resolve. The plugin's tasks never reject, because `Task.ObscureFile` is total. This assumes that the lines before the outer `try` (src/index.ts:130-133) do not throw; `process.cwd()` throws when the working directory has been deleted, and then the task rejects and the promise never resolves.
