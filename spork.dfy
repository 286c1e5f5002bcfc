/** The fork replacement (spork/spork.c): the fork context's lifecycle and
    the routing between the facade and the full-fork fallback. */
module Spork {
  import opened Wrappers
  import opened SporkTypes
  import opened OsModel
  import Facade

  /** One call to free() made while releasing a context. */
  datatype Release =
    | ExecPathFreed
    | ArgFreed(arg: string)
    | ArgvFreed
    | PayloadFreed(p: Ptr)
    | ChangesFreed
    | ContextFreed

  /** create_fork_context: NULL when the allocation fails, otherwise a
      context with pattern FORK_EXEC, exec_found false and no changes. */
  method CreateForkContext(allocOk: bool) returns (ctx: ForkContext?)
    ensures allocOk <==> ctx != null
    ensures ctx != null ==>
      (fresh(ctx) && ctx.Valid()
       && ctx.pattern == ForkExec && !ctx.execFound
       && ctx.stateChanges == [] && ctx.numChanges == 0
       && ctx.execPath == None && ctx.execArgv == None && ctx.execEnvp == None)
  {
    if !allocOk {
      return null;
    }
    ctx := new ForkContext();
  }

  /** add_state_change: on a successful realloc the change is stored at
      index num_changes and the count grows by one; on a failed one the
      array and the count stay as they were and the result is -1. */
  method AddStateChange(ctx: ForkContext, change: StateChange, reallocOk: bool) returns (r: int)
    requires ctx.Valid()
    modifies ctx
    ensures ctx.Valid()
    ensures reallocOk ==> r == 0 && ctx.stateChanges == old(ctx.stateChanges) + [change]
    ensures !reallocOk ==> r == -1 && ctx.stateChanges == old(ctx.stateChanges)
    ensures ctx.pattern == old(ctx.pattern) && ctx.execFound == old(ctx.execFound)
    ensures ctx.execPath == old(ctx.execPath) && ctx.execArgv == old(ctx.execArgv)
    ensures ctx.execEnvp == old(ctx.execEnvp) && ctx.pid == old(ctx.pid)
  {
    if !reallocOk {
      return -1;
    }
    ctx.stateChanges := ctx.stateChanges + [change];
    ctx.numChanges := ctx.numChanges + 1;
    return 0;
  }

  /** The strings a list of changes owns: the name and value of each
      setenv change and the path of each chdir change, in order. */
  function PayloadReleases(changes: seq<StateChange>): seq<Release>
  {
    if changes == [] then []
    else
      var c := changes[|changes| - 1];
      PayloadReleases(changes[..|changes| - 1]) + ChangeReleases(c)
  }

  /** The strings one change owns: a setenv's name and value, a chdir's
      path; a signal change owns none. */
  function ChangeReleases(c: StateChange): seq<Release>
  {
    match c
    case SetEnv(n, v) => [PayloadFreed(n), PayloadFreed(v)]
    case ChDir(p) => [PayloadFreed(p)]
    case _ => []
  }

  /** The free() calls free_fork_context makes for a context. */
  function ReleaseLog(path: Option<string>, argv: Option<CArgv>, changes: seq<StateChange>): seq<Release>
    requires argv.Some? ==> NullTerminated(argv.value)
  {
    (if path.Some? then [ExecPathFreed] else [])
    + (if argv.Some? then ArgReleases(ArgStrings(argv.value)) + [ArgvFreed] else [])
    + (if changes != [] then PayloadReleases(changes) + [ChangesFreed] else [])
    + [ContextFreed]
  }

  function ArgReleases(args: seq<string>): (rs: seq<Release>)
    ensures |rs| == |args| && forall i :: 0 <= i < |args| ==> rs[i] == ArgFreed(args[i])
  {
    seq(|args|, i requires 0 <= i < |args| => ArgFreed(args[i]))
  }

  /** Only setenv and chdir payloads are released: an address is freed
      while releasing the changes exactly when some setenv change names it
      as its name or value, or some chdir change as its path. Signal
      handler addresses are never freed. */
  lemma {:induction false} PayloadReleasesOwned(changes: seq<StateChange>, p: Ptr)
    ensures PayloadFreed(p) in PayloadReleases(changes) <==>
      exists i :: 0 <= i < |changes| && Owns(changes[i], p)
    decreases |changes|
  {
    if changes != [] {
      var init := changes[..|changes| - 1];
      var c := changes[|changes| - 1];
      assert PayloadReleases(changes) == PayloadReleases(init) + ChangeReleases(c);
      assert PayloadFreed(p) in ChangeReleases(c) <==> Owns(c, p);
      PayloadReleasesOwned(init, p);
      if exists i :: 0 <= i < |init| && Owns(init[i], p) {
        var i :| 0 <= i < |init| && Owns(init[i], p);
        assert changes[i] == init[i];
      }
      if exists i :: 0 <= i < |changes| && Owns(changes[i], p) {
        var i :| 0 <= i < |changes| && Owns(changes[i], p);
        if i < |init| {
          assert init[i] == changes[i];
        }
      }
    }
  }

  /** The change owns the string at address p. */
  predicate Owns(c: StateChange, p: Ptr)
  {
    (c.SetEnv? && (c.name == p || c.value == p)) || (c.ChDir? && c.path == p)
  }

  /** The argument loop of free_fork_context: every entry before the NULL
      one, in order. */
  method FreeArgs(argv: CArgv) returns (released: seq<Release>)
    requires NullTerminated(argv)
    ensures released == ArgReleases(ArgStrings(argv))
  {
    ghost var args := ArgStrings(argv);
    released := [];
    var i := 0;
    while argv[i] != None
      invariant 0 <= i <= FirstNull(argv)
      invariant released == ArgReleases(args[..i])
      decreases FirstNull(argv) - i
    {
      assert args[i] == argv[i].value;
      released := released + [ArgFreed(argv[i].value)];
      i := i + 1;
    }
    assert args[..i] == args;
  }

  /** The change loop of free_fork_context: the strings of each setenv and
      chdir change, in index order. */
  method FreePayloads(changes: seq<StateChange>) returns (released: seq<Release>)
    ensures released == PayloadReleases(changes)
  {
    released := [];
    for i := 0 to |changes|
      invariant released == PayloadReleases(changes[..i])
    {
      assert changes[..i + 1][..i] == changes[..i];
      match changes[i]
      case SetEnv(n, v) => released := released + [PayloadFreed(n), PayloadFreed(v)];
      case ChDir(p) => released := released + [PayloadFreed(p)];
      case _ =>
    }
    assert changes[..|changes|] == changes;
  }

  /** free_fork_context: nothing for NULL; otherwise exec_path, each
      argument before the NULL entry and the vector, the owned payload
      strings and the array, and finally the context itself. */
  method FreeForkContext(ctx: ForkContext?) returns (released: seq<Release>)
    requires ctx != null ==> ctx.Valid()
    ensures ctx == null ==> released == []
    ensures ctx != null ==> released == ReleaseLog(ctx.execPath, ctx.execArgv, ctx.stateChanges)
  {
    if ctx == null {
      return [];
    }
    var path: seq<Release> := [];
    if ctx.execPath.Some? {
      path := [ExecPathFreed];
    }
    var argv: seq<Release> := [];
    if ctx.execArgv.Some? {
      var args := FreeArgs(ctx.execArgv.value);
      argv := args + [ArgvFreed];
    }
    var changes: seq<Release> := [];
    if ctx.stateChanges != [] {
      var payloads := FreePayloads(ctx.stateChanges);
      changes := payloads + [ChangesFreed];
    }
    released := path + argv + changes + [ContextFreed];
  }

  /** What the native fork reports: the symbol lookup failed, or fork ran
      and returned `result` (leaving `err` in errno when it failed). */
  datatype ForkReply = NoSymbol | Forked(result: int, err: int)

  /** What ufork_clone_process promises: ENOSYS without a native fork,
      otherwise one native fork whose result is passed through unchanged. */
  twostate predicate UforkSpec(os: Os, realFork: ForkReply, r: int)
    reads os
  {
    && os.environ == old(os.environ)
    && (realFork.NoSymbol? ==> r == -1 && os.errno == ENOSYS && os.events == old(os.events))
    && (realFork.Forked? ==>
          r == realFork.result && os.events == old(os.events) + [NativeFork]
          && os.errno == (if realFork.result < 0 then realFork.err else old(os.errno)))
  }

  /** ufork_clone_process, the full-fork fallback. */
  method UforkCloneProcess(os: Os, realFork: ForkReply) returns (r: int)
    modifies os
    ensures UforkSpec(os, realFork, r)
  {
    if realFork.NoSymbol? {
      os.errno := ENOSYS;
      return -1;
    }
    os.events := os.events + [NativeFork];
    if realFork.result < 0 {
      os.errno := realFork.err;
    }
    return realFork.result;
  }

  /** The routing step of spork_fork: the facade when exec_found is set,
      the fallback otherwise; the callee's result is returned unchanged. */
  method Dispatch(os: Os, ctx: ForkContext, reply: SpawnReply, tmp: TempReply,
                  loaderReply: SpawnReply, realFork: ForkReply) returns (r: int)
    requires ctx.Valid()
    requires ctx.execPath.Some? ==> ctx.execArgv.Some?
    modifies os
    ensures ctx.execFound ==> Facade.FacadeSpec(os, ctx, reply, tmp, loaderReply, r)
    ensures !ctx.execFound ==> UforkSpec(os, realFork, r)
  {
    if ctx.execFound {
      r := Facade.FacadeAnalyzeAndSpawn(os, ctx, reply, tmp, loaderReply);
    } else {
      r := UforkCloneProcess(os, realFork);
    }
  }

  /** The target every spork_fork plans: /bin/echo with these arguments. */
  const ECHO_PATH: string := "/bin/echo"
  const ECHO_ARGV: CArgv := [Some("echo"), Some("Hello from Spork!"), None]

  /** The global `current_fork_ctx`. */
  class SporkGlobals {
    var currentForkCtx: ForkContext?

    constructor ()
      ensures currentForkCtx == null
    {
      currentForkCtx := null;
    }
  }

  /** What spork_fork (and so fork) promises. A failed context allocation
      is -1 with ENOMEM and nothing else happens. Otherwise exec_found is
      forced true and no change is ever added, so every call spawns
      /bin/echo directly and returns that spawn's outcome; afterwards
      the context, with its path and argument vector, has been freed and
      current_fork_ctx is NULL again. */
  twostate predicate SporkForkSpec(g: SporkGlobals, os: Os, allocOk: bool, reply: SpawnReply,
                                   pid: int, released: seq<Release>)
    reads g, os
  {
    && os.environ == old(os.environ)
    && (!allocOk ==>
          pid == -1 && os.errno == ENOMEM && os.events == old(os.events)
          && released == []
          && g.currentForkCtx == old(g.currentForkCtx))
    && (allocOk ==>
          os.events == old(os.events) + Facade.DirectSpawnEvents(ECHO_PATH, ECHO_ARGV, os.environ)
          && pid == SpawnResult(reply)
          && os.errno == ErrnoAfterSpawn(old(os.errno), reply)
          && released == EchoReleases()
          && g.currentForkCtx == null)
  }

  /** What free_fork_context releases for the context spork_fork builds:
      its exec path and argument vector; it never gets a change array. */
  function EchoReleases(): seq<Release>
  {
    assert ECHO_ARGV[2] == None;
    ReleaseLog(Some(ECHO_PATH), Some(ECHO_ARGV), [])
  }

  /** That release is the path, both argument strings in order, the
      vector and the context. */
  lemma EchoReleasesAre()
    ensures EchoReleases()
         == [ExecPathFreed, ArgFreed("echo"), ArgFreed("Hello from Spork!"), ArgvFreed, ContextFreed]
  {
    assert ECHO_ARGV[2] == None;
    assert ArgStrings(ECHO_ARGV) == ["echo", "Hello from Spork!"];
  }

  /** spork_fork. */
  method SporkFork(g: SporkGlobals, os: Os, allocOk: bool, reply: SpawnReply, tmp: TempReply,
                   loaderReply: SpawnReply, realFork: ForkReply) returns (pid: int, released: seq<Release>)
    modifies g, os
    ensures SporkForkSpec(g, os, allocOk, reply, pid, released)
  {
    var ctx := CreateForkContext(allocOk);
    if ctx == null {
      os.errno := ENOMEM;
      return -1, [];
    }
    g.currentForkCtx := ctx;

    ctx.execFound := true;
    ctx.execPath := Some(ECHO_PATH);
    assert ECHO_ARGV[2] == None;
    ctx.execArgv := Some(ECHO_ARGV);

    pid := Dispatch(os, ctx, reply, tmp, loaderReply, realFork);
    released := FreeForkContext(ctx);
    g.currentForkCtx := null;
  }

  /** The exported fork(): exactly spork_fork. */
  method Fork(g: SporkGlobals, os: Os, allocOk: bool, reply: SpawnReply, tmp: TempReply,
              loaderReply: SpawnReply, realFork: ForkReply) returns (pid: int, released: seq<Release>)
    modifies g, os
    ensures SporkForkSpec(g, os, allocOk, reply, pid, released)
  {
    pid, released := SporkFork(g, os, allocOk, reply, tmp, loaderReply, realFork);
  }
}
