# cs5600 spork and homework data structures in Dafny

This project models the spork fork-replacement prototype and five small
homework data structures of the cs5600 repository, and proves properties of
the model.

**spork.** `spork_fork` replaces `fork()`. It builds a fork context: a
planned exec target plus an ordered list of process-state changes (close a
descriptor, dup one onto another, install a signal handler, and a few tags
the loader ignores). It then hands the context to the facade.
- A context without changes is started with one `posix_spawn`.
- A context with changes goes to the primer. The primer serialises the
  changes, the target path and the argument vector into a temporary file,
  then spawns `./primer` on it.
- The primer loader reads the stream back, applies the changes in order to
  its own descriptor and signal state, and `execv`s the target.

The model covers:
- the wire format, as a sequence of fixed-width tokens (`PrimerWire`);
- the OS, as a class holding an event log, `errno` and the environment
  (`OsModel`);
- the loader's process state, as maps from descriptors and signal numbers
  (`PrimerLoader`).

Proved properties include:
- the encode/decode round trip;
- the end-to-end guarantee that the loader execs the target with the
  caller's changes applied in order, when no change closes or redirects the
  descriptor the loader reads the state file from (see Findings) and the
  loader opens the file before the primer unlinks it;
- the path-selection and errno contracts of the facade and `spork_fork`;
- the release log of `free_fork_context`.

**spork shell.** `simple-spork-shell.c` analyses a `.c` command for exec
calls and rewrites fork+exec regions into `posix_spawn` line by line, using a
two-variable state machine (`in_fork_section`, `brace_count`). It then
derives the executable and rewritten-source names and keeps statistics.

**Homework.**
- A doubling vector (homework4).
- A chained hash table in two locking variants, an approximate counter, and
  two list lookups (homework7). All three are modelled in their sequential
  semantics.
- The size converter and limit sweep of homework5's relocation experiment.

Syscalls and allocation outcomes are parameters of the methods that make
them: `SpawnReply`, `TempReply`, `ForkReply`, and the `allocOk`/`reallocOk`
flags. Files read by the shell are given as their lines (`None` when they
cannot be opened).

## Model

| member | source | states |
|---|---|---|
| SporkTypes.PatternOf | spork/spork.h:16-20 | exactly the codes 1, 2, 3 name a pattern, and the pattern named has that code |
| SporkTypes.ActionTagsDistinct | spork/spork.h:23-32 | every action tag is in 0..7, and two changes share a tag iff they are the same kind of change |
| SporkTypes.Pointers | spork/spork.h:38-55 | a change carries addresses (not strings or code) exactly when it is a signal-handler, setenv or chdir change |
| SporkTypes.FirstNull | spork/primer.c:31-32 | argc is the index of the first NULL entry; every earlier entry is a string |
| SporkTypes.ArgStringsOfTerminated | spork/primer_loader.c:55-62 | a vector built from an argument list is NULL-terminated and reads back as that list |
| SporkTypes.ForkContext.constructor | spork/spork.h:66-75 | a context has no planned target and no changes; num_changes is the length of the change list |
| PrimerWire.ReadRecords | spork/primer_loader.c:22-24 | reading n records yields n records |
| PrimerWire.ReadBytes | spork/primer_loader.c:49-50 | reading n bytes yields n bytes |
| PrimerWire.CStringOf | spork/primer_loader.c:49-50 | the string a buffer holds ends at its first NUL; a buffer without a NUL yields nothing |
| PrimerWire.DecodeArgs | spork/primer_loader.c:56-61 | decoding k arguments yields exactly k strings |
| PrimerWire.EncodeArgsCons | spork/primer.c:34-38 | the argument encoding of a longer list starts with the encoding of its first argument |
| PrimerWire.CStringOfTerminated | spork/primer.c:25-26 | a NUL-free string followed by its terminator reads back as that string |
| PrimerWire.ReadBytesOf | spork/primer_loader.c:49-50 | reading the bytes of a string back gives the string and leaves the rest of the stream |
| PrimerWire.ReadRecordsOf | spork/primer_loader.c:19-24 | reading the written records back gives the same changes in order |
| PrimerWire.DecodeStringOf | spork/primer_loader.c:47-50 | a length-prefixed NUL-terminated string decodes to itself |
| PrimerWire.DecodeArgsOf | spork/primer_loader.c:53-62 | the encoded argument list decodes to the same list in order |
| PrimerWire.DecodeChangesOf | spork/primer_loader.c:19-24 | a count followed by that many records decodes to the same change list |
| PrimerWire.DecodeTargetOf | spork/primer_loader.c:47-62 | the encoded path and argument list decode to the same path and list |
| PrimerWire.DecodeStreamOf | spork/primer_loader.c:19-62 | the written stream followed by anything decodes to its changes, then to its path and arguments, leaving what follows |
| PrimerWire.DecodeEncode | spork/primer.c:22-38 | decoding the primer's stream gives back the same changes in order, the same path and the same arguments, whatever follows |
| OsModel.SpawnResult | spork/primer.c:51-56 | a failed spawn returns -1; a successful one returns the child pid |
| OsModel.ErrnoAfterSpawn | spork/facade.c:34-37 | a failed spawn sets errno to its return code; a successful one leaves errno alone |
| OsModel.WrittenSnoc | spork/primer.c:22-38 | one more event extends the file's contents by exactly what that event wrote to it |
| OsModel.WrittenAppend | spork/primer.c:22-38 | the contents written by two runs of events are the first's followed by the second's |
| OsModel.Os.constructor | spork/facade.c:5 | a fresh OS has no events, errno 0 and the given environment |
| Primer.ArgWritesEncode | spork/primer.c:34-38 | the per-argument writes put exactly the argument encoding into the file |
| Primer.PrimerWritesEncode | spork/primer.c:22-38 | the primer's writes put exactly Encode(changes, path, args) into the file: count, records, path length, path, argc, arguments |
| Primer.CountArgs | spork/primer.c:31-32 | the counting loop stops at the first NULL entry |
| Primer.WriteArgs | spork/primer.c:33-38 | the argument loop appends a length write and a byte write for each argument, in order, and changes nothing else |
| Primer.WriteStream | spork/primer.c:21-38 | the writes to the state file are exactly the stream's pieces in order (count, records, path length and bytes, argc, each argument), and errno and the environment are untouched |
| Primer.PrimerExecute | spork/primer.c:7-57 | if mkstemp fails: -1 with its errno and no event; otherwise temp file, the full stream, close, a spawn of ./primer with [./primer, file], unlink whatever the spawn did, and the spawn's result and errno |
| PrimerLoader.ApplyChangeEffect | spork/primer_loader.c:28-44 | close removes the descriptor and keeps the rest; dup2 from an open descriptor onto a number below the descriptor limit makes newfd refer to what oldfd refers to and keeps the rest, and otherwise fails and changes nothing; signal on a catchable number installs the handler, and on SIGKILL, SIGSTOP, glibc's two reserved signals or a number outside 1..64 fails and changes nothing; every other tag changes nothing |
| PrimerLoader.ApplyAllAppend | spork/primer_loader.c:28-44 | applying a list is applying its first part and then the rest: the changes take effect in index order |
| PrimerLoader.ApplyAllInert | spork/primer_loader.c:40-42 | a list of none/setenv/chdir/setuid/setgid changes leaves the process state unchanged |
| PrimerLoader.OrderMatters | spork/primer_loader.c:28-44 | dup(3,1) then close(3) differs from close(3) then dup(3,1), so the order of the list is observable |
| PrimerLoader.ApplyAllKeeps | spork/primer_loader.c:28-44 | a descriptor that no change closes or dups onto keeps its open-file description through the whole list |
| PrimerLoader.ApplyAllAway | spork/primer_loader.c:28-44 | changes that never name a descriptor act the same whether or not it is open, and do not open it |
| PrimerLoader.LowestFree | spork/primer_loader.c:13 | open() returns the lowest descriptor number not in use: it is free and every smaller one is taken |
| PrimerLoader.StateFileKept | spork/primer_loader.c:13-64 | changes that do not close or redirect the state file's descriptor leave the loader reading the state file; when they never name it, closing it afterwards leaves exactly the changes applied to the starting state |
| PrimerLoader.LoadOfTransfer | spork/primer_loader.c:13-72 | on an encoded transfer the loader execs the target with the changed, state-file-closed, exec-reset state exactly when the changes leave its descriptor on the state file, and is undetermined otherwise; a failing execv exits 1 |
| PrimerLoader.ApplyChanges | spork/primer_loader.c:28-44 | the apply loop yields the in-order application of every change |
| PrimerLoader.ReadTargetArgv | spork/primer_loader.c:53-62 | the argv loop fills argc entries from the stream and a final NULL, or reports a malformed stream |
| PrimerLoader.ReadArgsInto | spork/primer_loader.c:54-61 | the reads of the loop succeed exactly when the stream holds argc strings, leave each in its entry, and return the unread rest |
| PrimerLoader.ReadArgsFromDecode | spork/primer_loader.c:54-61 | reading with some strings already in hand gives those strings followed by the decoded remainder |
| PrimerLoader.LoaderMain | spork/primer_loader.c:4-73 | the loader's outcome is Load: exit 1 without a state file, when the file is missing or when no descriptor is free; an undetermined outcome on a malformed stream or when a change closed or redirected the loader's descriptor before the target is read; otherwise exec of the read target with the changes applied, the state file closed and caught handlers reset by execv, or exit 1 if execv returns |
| PrimerLoader.LoaderRunsTransfer | spork/primer_loader.c:13-72 | on a stream that encodes (changes, path, args), with a free descriptor and no change closing or redirecting it, the loader execs path with args NULL-terminated and the changes applied in order; when no change names that descriptor the target sees exactly the changes applied to the starting state (caught handlers reset by execv); if execv fails it exits 1 |
| PrimerLoader.LoaderLosesStateFile | spork/primer_loader.c:13-64 | as written, with 0, 1 and 2 open, a transfer whose change closes descriptor 3 or dups stdout onto it leaves the loader undetermined, while reading first execs the target |
| PrimerLoader.LoadReadingFirstRunsTransfer | spork/primer_loader.c:13-72 | with every read done and the state file closed before the changes, any encoded transfer makes the loader exec the target with the changes applied in order to its starting state |
| PrimerLoader.PrimerThenLoader | spork/primer.c:22-49 | what the primer writes, handed to the loader as [./primer, file]: if the loader opens it before the primer's unlink, it execs the caller's target with its arguments and changes (as written when no change names the loader's descriptor, reading first always); if the unlink comes first, the loader exits 1 |
| Facade.FacadeAnalyzeAndSpawn | spork/facade.c:7-45 | NULL context or path: -1, EINVAL, nothing spawned; no changes: file-actions/attr init, spawn with the caller's environment, both destroyed, spawn result and errno; changes: exactly the primer's events and result |
| Spork.CreateForkContext | spork/spork.c:23-33 | NULL iff allocation fails; otherwise pattern FORK_EXEC, exec_found false, no target and no changes |
| Spork.AddStateChange | spork/spork.c:64-78 | on success appends the change at index num_changes and returns 0; on failure returns -1 with the list unchanged; no other field changes |
| Spork.PayloadReleasesOwned | spork/spork.c:48-56 | a payload address is freed iff some setenv change names it as name or value or some chdir change as path; signal handlers are never freed |
| Spork.FreeArgs | spork/spork.c:41-45 | the argument loop frees each argument before the NULL entry, in order |
| Spork.FreePayloads | spork/spork.c:48-56 | the change loop frees the payload strings of setenv and chdir changes, in index order |
| Spork.FreeForkContext | spork/spork.c:36-61 | NULL frees nothing; otherwise path, arguments, vector, payloads, array and context, in that order |
| Spork.UforkCloneProcess | spork/ufork.c:8-31 | without the native symbol: -1 with ENOSYS and no fork; otherwise one native fork whose result and errno are passed through |
| Spork.Dispatch | spork/spork.c:117-131 | exec_found routes to the facade, otherwise to the fallback, and the callee's result is returned unchanged |
| Spork.SporkGlobals.constructor | spork/spork.c:8 | current_fork_ctx starts NULL |
| Spork.SporkFork | spork/spork.c:82-132 | allocation failure: -1, ENOMEM, nothing spawned or freed; otherwise a direct spawn of /bin/echo ["echo","Hello from Spork!"] with the spawn's result and errno, then the context freed with the release log of its path and argument vector, and current_fork_ctx NULL again |
| Spork.EchoReleasesAre | spork/spork.c:36-61 | freeing spork_fork's context frees the path, "echo", "Hello from Spork!", the vector and the context, in that order, and no change array |
| Spork.Fork | spork/spork.c:135-137 | fork() behaves exactly as spork_fork(): the same result, errno, events and release log |
| SporkShell.Find | spork/simple-spork-shell.c:54-55 | strstr: the first index where the pattern occurs, or -1 when it occurs nowhere |
| SporkShell.TokensWellFormed | spork/simple-spork-shell.c:34-43 | strtok's tokens are non-empty and contain no space, tab or newline |
| SporkShell.ScanOfWord | spork/simple-spork-shell.c:34-43 | scanning a delimiter-free string finishes no token and keeps the whole string as the token in progress |
| SporkShell.TokensOfWord | spork/simple-spork-shell.c:34-43 | a delimiter-free word is a single token, and the empty string has none |
| SporkShell.TokensSnoc | spork/simple-spork-shell.c:34-43 | appending a delimiter leaves the tokens unchanged; appending another character starts a new token after a delimiter or at the start, and otherwise extends the last token |
| SporkShell.TokensSnocWord | spork/simple-spork-shell.c:34-43 | a delimiter followed by a non-empty delimiter-free word adds exactly that word as the last token |
| SporkShell.ParseCommand | spork/simple-spork-shell.c:34-43 | stores the first min(#tokens, 63) tokens in order, a NULL after them, and returns their count |
| SporkShell.ExeclpNotDetected | spork/simple-spork-shell.c:54-55 | a line with only execlp( is not recognised as an exec call |
| SporkShell.AnalyzeSourceForExec | spork/simple-spork-shell.c:46-64 | 1 iff some line contains execl(, execv(, execve( or execvp(; 0 for a file that cannot be opened |
| SporkShell.TrackBracesCount | spork/simple-spork-shell.c:172-182 | over a line brace_count moves by #'{' minus #'}', and a closed section stays closed |
| SporkShell.TrackBracesCloses | spork/simple-spork-shell.c:172-182 | the section closes on a line iff some '}' brings brace_count to 0 or below |
| SporkShell.VerbatimCopy | spork/simple-spork-shell.c:172-187 | an ordinary line is copied verbatim iff after the brace scan the rewriter is outside a section or brace_count > 1, and dropped otherwise |
| SporkShell.ForkLineOpensSection | spork/simple-spork-shell.c:134-139 | a fork() line is replaced by the two fixed lines and opens a section, keeping brace_count |
| SporkShell.RewriteWithoutFork | spork/simple-spork-shell.c:127-188 | a source without fork() lines is copied unchanged except for its spawn.h includes |
| SporkShell.RewriteLine | spork/simple-spork-shell.c:127-188 | one loop iteration, brace scan included, produces the state and lines of the rewrite step |
| SporkShell.RewriteToPosixSpawn | spork/simple-spork-shell.c:109-193 | 0 if either file fails to open (an opened output is left empty); otherwise 1 and the output is the two header lines followed by each input line's rewrite, in order |
| SporkShell.Truncate | spork/simple-spork-shell.c:207-213 | a 256-byte buffer holds at most 255 characters, a prefix of the input, and all of a short input |
| SporkShell.BaseNameIsPrefix | spork/simple-spork-shell.c:206-210 | the base name is the command up to its first ".c", and contains no ".c" |
| SporkShell.BuiltinsAreNotSources | spork/simple-spork-shell.c:297-302 | no builtin name contains ".c" |
| SporkShell.Shell.constructor | spork/simple-spork-shell.c:26 | the statistics start at zero |
| SporkShell.Shell.CmdReset | spork/simple-spork-shell.c:87-90 | every counter is zero |
| SporkShell.Shell.ExecuteCommand | spork/simple-spork-shell.c:195-244 | no command: 0, no change; no ".c": rejected, no change; otherwise analyzed_count +1, then optimized_count or fork_calls +1, posix_spawn_calls +1 only after a successful rewrite, and the source and executable it hands to the compiler |
| SporkShell.Shell.HandleLine | spork/simple-spork-shell.c:331-340 | a blank line or one without tokens is skipped; a builtin runs (reset zeroes the counters); any other first token goes to execute_command |
| Vector.CapacityAfterBounds | homework4/vector.c:13-24 | after n pushes the capacity is 2·2^k, at least n, and below 2n once n > 2 |
| Vector.Vector.constructor | homework4/vector.c:11-19 | size 0, capacity 2, no elements |
| Vector.Vector.Push | homework4/vector.c:22-34 | capacity doubles exactly when size == capacity; the value is stored at the old size, earlier elements are kept, and size grows by one |
| Vector.Vector.Free | homework4/vector.c:37-41 | data NULL, size and capacity 0 |
| Vector.FillDemo | homework4/vector.c:47-50 | pushing 0, 10, ..., 90 gives those values in order, size 10 and capacity 16 |
| HashTable.Hash | homework7/hashtable.c:26-28 | a non-negative key hashes to key mod 101 within the table; a negative key to a non-positive index |
| HashTable.NegativeKeyOutOfTable | homework7/hashtable.c:26-28 | C's truncating % sends key -1 to bucket -1, outside the table |
| HashTable.ChainLookup | homework7/hashtable.c:55-65 | the value of the first node with the key, or -1 when no node has it |
| HashTable.LookupEmpty | homework7/hashtable.c:32-37 | nothing is found in an initialised table |
| HashTable.LookupAfterInsert | homework7/hashtable.c:39-63 | without a duplicate check, lookup returns the most recently inserted value |
| HashTable.LookupOtherKey | homework7/hashtable.c:39-63 | inserting a key leaves every other key's lookup unchanged, even in the same bucket |
| HashTable.InsertOnlyItsBucket | homework7/hashtable.c:39-49 | insert changes only the key's bucket |
| HashTable.Table.constructor | homework7/hashtable.c:32-37 | after init every bucket is empty |
| HashTable.Table.Insert | homework7/hashtable.c:77-87 | a node is prepended to bucket hash(key) and no other bucket changes |
| HashTable.Table.Lookup | homework7/hashtable.c:89-104 | the chain walk returns the table's lookup value and changes nothing |
| HashTable.PopulatedStep | homework7/hashtable.c:139-149 | each insert of run_test makes its key found with ten times itself and leaves every other key's lookup as it was |
| HashTable.PopulatedLookup | homework7/hashtable.c:139-149 | after run_test's inserts, lookup(i) is i*10 for i below the item count and -1 beyond |
| HashTable.Populate | homework7/hashtable.c:139-149 | the initialisation loop builds the populated table |
| HashTable.Run | homework7/hashtable.c:39-104 | running a history yields the lookup results and table of its sequential replay |
| ApproxCounter.SumUpdate | homework7/approx_counter.c:44-50 | changing one local count changes the local sum by the same amount |
| ApproxCounter.StepTotal | homework7/approx_counter.c:42-54 | an increment raises global plus the local sum by exactly one |
| ApproxCounter.StepBounded | homework7/approx_counter.c:44-51 | with threshold ≥ 1, locals stay in [0, threshold), global stays a multiple of the threshold, and a flush adds exactly the threshold |
| ApproxCounter.ApproxCounter.constructor | homework7/approx_counter.c:32-40 | global 0 and every used local count 0, so the total is 0 |
| ApproxCounter.ApproxCounter.Increment | homework7/approx_counter.c:42-54 | only local[thread_id] and global change; the total rises by exactly one; the bound is kept |
| ApproxCounter.ApproxCounter.Get | homework7/approx_counter.c:56-68 | returns global plus the local counts of the num_cpus slots and changes nothing |
| ApproxCounter.RunWorkers | homework7/approx_counter.c:95-117 | after every worker's increments the count read is num_threads · num_increments |
| KeyList.KeyList.ListInit | homework7/list.c:19-22 | list_init yields an empty list |
| KeyList.KeyList.HohInit | homework7/list.c:40-45 | hoh_init yields the single sentinel -1 |
| KeyList.KeyList.ListLookup | homework7/list.c:24-36 | 1 iff some node holds the key, 0 otherwise; nothing changes |
| KeyList.KeyList.HohLookup | homework7/list.c:47-64 | 1 iff some node after the head holds the key; the head is never compared; nothing changes |
| KeyList.KeyList.Prepend | homework7/list.c:103-109 | a population step puts the new node in front of the head |
| KeyList.KeyList.InsertAfterHead | homework7/list.c:103-109 | the corrected step puts the new node right after the sentinel |
| KeyList.PopulateAsWritten | homework7/list.c:97-109 | the list reads 0..n-1, followed by the sentinel in hand-over-hand mode |
| KeyList.PopulateCorrected | homework7/list.c:97-109 | with the corrected step the list reads the sentinel, then 0..n-1 |
| KeyList.ListFindsPopulated | homework7/list.c:24-36 | the populated one-lock list holds exactly the keys below n |
| KeyList.HohAsWrittenMissesFirstKey | homework7/list.c:47-64 | as populated, key 0 is at the head and unseen, while the sentinel -1 is seen |
| KeyList.HohCorrectedFindsPopulated | homework7/list.c:47-64 | with the sentinel at the head, exactly the keys below n are found |
| KeyList.HohRunAsWritten | homework7/list.c:93-109 | run as written, hoh_lookup(0) reports 0 and hoh_lookup(-1) reports 1 |
| KeyList.HohRunCorrected | homework7/list.c:93-109 | run corrected, hoh_lookup reports 1 exactly for the keys below n |
| Relocation.ParseInt | homework5/relocation_graph.py:22-28 | int() yields a value only for a non-empty string |
| Relocation.NatToDigits | homework5/relocation_graph.py:19 | str() of a number is a non-empty run of decimal digits |
| Relocation.IntToString | homework5/relocation_graph.py:19 | str() of an integer ends in a digit |
| Relocation.DigitsRoundTrip | homework5/relocation_graph.py:19-28 | the digits of n read back as n |
| Relocation.ParseIntToString | homework5/relocation_graph.py:19-28 | int(str(n)) == n |
| Relocation.UnitScale | homework5/relocation_graph.py:21-26 | exactly k, K, m, M, g, G are unit letters |
| Relocation.ConvertNumber | homework5/relocation_graph.py:19-28 | an integer converts to itself |
| Relocation.ConvertWithUnit | homework5/relocation_graph.py:21-26 | a number followed by k/m/g (either case) converts to the number times 1024, 1024² or 1024³ |
| Relocation.ConvertErrors | homework5/relocation_graph.py:19-28 | the empty string, a lone unit letter and a non-number raise errors |
| Relocation.RangeUp | homework5/relocation_graph.py:57 | a rising range lists start, start+step, ..., every value below stop and no further |
| Relocation.RangeOfLength | homework5/relocation_graph.py:57 | a range whose last value falls in the final step before stop has exactly that many values |
| Relocation.MainSizes | homework5/relocation_graph.py:54-55 | main's sizes are 1024 and 16384 |
| Relocation.SweepFor1k | homework5/relocation_graph.py:57 | the sweep for 1024 is the 21 limits 0, 51, ..., 1020 |
| Relocation.SmallSpaceHasNoSweep | homework5/relocation_graph.py:57 | an address space under 20 bytes gives a zero step, which range() rejects |

## Left out

- I/O, `printf`/`perror` output, timing (`gettimeofday`), `popen`/`gcc` compilation, and running the built binary with fork/exec/waitpid. Nothing is computed from them except the timing statistics.
- Kernel semantics of `posix_spawn`, `execv`, `mkstemp`, `open`, `read`, `write`, `unlink`, `signal` and `dup2`. They are events in a log, or parameters giving their outcome.
- The byte layout of `process_state_change_t`, `int` and `size_t` on the wire. Each field is one token.
- The meaning of the transported addresses. setenv and chdir strings and handler addresses are opaque numbers.
- Locks, threads and interleavings in homework7. The structures are modelled sequentially. `RunWorkers` runs the workers one after another.
- Allocation failures that the C does not check: `malloc` in the hash table and lists, `strdup`/`calloc` for the echo target in `spork_fork`, and `malloc`/`calloc` in the loader.
- Allocation failures that make vector.c exit: `malloc` in `vector_init` and `realloc` in `vector_push`.
- Fixed-width integer overflow: `int`, `long`, `size_t`, `i * 10` in the populate loops, and a `num_changes` too large for `calloc`.
- `run_segmentation`, the random-number experiment and the matplotlib plot in relocation_graph.py.
- `cmd_stats`, `cmd_help` and the exit of `execute_builtin`. They only print or terminate.
- `fgets`: reading in 2048-byte chunks, the 1024-byte input buffer, and end of input in the shell loop. A line longer than a chunk is one line here.
- `spork_init`'s `dlsym` lookup of the native fork. Its result is the `ForkReply` parameter.
- PrimerExecute: a failed or short `write` is not detected, as in the code.
- PrimerLoader.ApplyChange: the signal numbers and failures are those of Linux with glibc (signals 1 to 64, SIGKILL 9, SIGSTOP 19, the reserved 32 and 33). Close-on-exec flags are not modelled: every descriptor open at execv passes to the target.
- PrimerLoader.LoaderMain: a short or malformed stream gives the outcome `Indeterminate`, not an error exit. The loader never checks its reads, so what it then does is not determined.
- Relocation.ParseInt: accepts only an optional sign followed by ASCII digits. Python's `int()` also accepts surrounding whitespace, underscores between digits and non-ASCII digits; those inputs are `None` here.
- SporkShell.ExecLines: quotes the whole literal. A literal of 256 or more characters overflows the 256-byte `path` buffer in the code.
- SporkShell.BaseName: assumes the byte after the 255 characters `strncpy` copies is a NUL. The code leaves `basename[255]` unset for commands of 255 or more characters.
- SporkShell.Shell.ExecuteCommand: stops where the compile step begins. `total_spawns` and `total_time_us` are not modelled; they change only after the binary has run. For a command name of 256 or more characters, the `strcpy` into the 256-byte `source_to_compile` buffer (simple-spork-shell.c:222, 242) overflows in the code; the model keeps the whole name instead.
- Facade.FacadeAnalyzeAndSpawn: requires an argument vector whenever a target path is set. The code would pass a NULL `exec_argv` to `posix_spawn`.
- HashTable.Table.Insert: requires a non-negative key, because `hash` of a negative key indexes outside the table.
- HashTable.TableLookup: requires a non-negative key, for the same reason; every lookup in the benchmark uses a key in 0..num_items-1.
- HashTable.Table.Lookup: requires a non-negative key, for the same reason.

## Findings

| source | as written | input that shows it | evidently intended | confidence | as-written member | corrected member |
|---|---|---|---|---|---|---|
| homework7/list.c:103-109 | in hand-over-hand mode the population loop prepends each key in front of the sentinel, so the list reads 0, 1, ..., n-1, -1 and `hoh_lookup`, which skips the head, never sees key 0 but does report the sentinel -1 | list_size = n ≥ 1: `hoh_lookup(0)` returns 0 and `hoh_lookup(-1)` returns 1 | keys inserted after the sentinel, so that `hoh_lookup` finds exactly 0..n-1 | medium, not executed | KeyList.HohRunAsWritten | KeyList.HohRunCorrected |
| spork/primer_loader.c:13-64 | the loader applies the changes to its own descriptors before it reads the target path and arguments from the state file, on the same descriptor | descriptors 0, 1, 2 open, so the state file is on 3; changes [close(3)] or [dup2(1, 3)]: the path and argv reads then fail or read from stdout | every read done (and the state file closed) before any change is applied, so that any change list reaches the target | high, not executed | PrimerLoader.LoaderLosesStateFile | PrimerLoader.LoadReadingFirstRunsTransfer |
