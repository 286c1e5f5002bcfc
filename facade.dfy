/** The fast-path facade (spork/facade.c): spawn the planned target
    directly when there are no pre-exec changes, hand it to the primer
    otherwise. */
module Facade {
  import opened Wrappers
  import opened SporkTypes
  import opened OsModel
  import Primer

  /** The primer is needed exactly when the context holds changes. */
  predicate NeedsPrimer(ctx: ForkContext)
    reads ctx
  {
    ctx.numChanges > 0
  }

  /** The calls of the direct path: the file-action and attribute objects
      are set up, the target is spawned with the caller's environment, and
      both objects are destroyed whatever the spawn returned. */
  function DirectSpawnEvents(path: string, argv: CArgv, envp: CArgv): seq<Event>
  {
    [FileActionsInit, SpawnAttrInit, Spawn(path, argv, envp), FileActionsDestroy, SpawnAttrDestroy]
  }

  /** What facade_analyze_and_spawn promises. A NULL context or NULL
      exec_path is EINVAL with nothing spawned. Without changes the target
      is spawned directly with the caller's environment and the spawn's
      outcome is returned; with changes the primer's outcome is returned
      unchanged. `pattern` and `exec_found` play no part. */
  twostate predicate FacadeSpec(os: Os, ctx: ForkContext?, reply: SpawnReply,
                                tmp: TempReply, loaderReply: SpawnReply, r: int)
    reads os, ctx
  {
    && os.environ == old(os.environ)
    && (ctx == null || ctx.execPath.None? ==>
          r == -1 && os.errno == EINVAL && os.events == old(os.events))
    && (ctx != null && ctx.execPath.Some? && ctx.execArgv.Some? && !NeedsPrimer(ctx) ==>
          os.events == old(os.events) + DirectSpawnEvents(ctx.execPath.value, ctx.execArgv.value, os.environ)
          && r == SpawnResult(reply)
          && os.errno == ErrnoAfterSpawn(old(os.errno), reply))
    && (ctx != null && ctx.execPath.Some? && ctx.execArgv.Some? && NeedsPrimer(ctx) ==>
          (tmp.TempFailed? ==> r == -1 && os.errno == tmp.err && os.events == old(os.events))
          && (tmp.TempFile? ==>
                NullTerminated(ctx.execArgv.value)
                && os.events == old(os.events) + [TempCreated(tmp.name)]
                   + Primer.PrimerWrites(tmp.name, ctx.stateChanges, ctx.execPath.value, ArgStrings(ctx.execArgv.value))
                   + [Close(tmp.name), Spawn(Primer.PRIMER_PATH, Primer.LoaderArgv(tmp.name), os.environ), Unlink(tmp.name)]
                && r == SpawnResult(loaderReply)
                && os.errno == ErrnoAfterSpawn(old(os.errno), loaderReply)))
  }

  /** facade_analyze_and_spawn. `reply` is what the direct spawn reports;
      `tmp` and `loaderReply` are what mkstemp and the loader's spawn report
      on the primer path. */
  method FacadeAnalyzeAndSpawn(os: Os, ctx: ForkContext?, reply: SpawnReply,
                               tmp: TempReply, loaderReply: SpawnReply)
    returns (r: int)
    requires ctx != null ==> ctx.Valid()
    requires ctx != null && ctx.execPath.Some? ==> ctx.execArgv.Some?
    modifies os
    ensures FacadeSpec(os, ctx, reply, tmp, loaderReply, r)
  {
    if ctx == null || ctx.execPath.None? {
      os.errno := EINVAL;
      return -1;
    }
    var needsPrimer := ctx.numChanges > 0;
    if !needsPrimer {
      var path := ctx.execPath.value;
      var argv := ctx.execArgv.value;
      os.events := os.events + [FileActionsInit, SpawnAttrInit];
      os.events := os.events + [Spawn(path, argv, os.environ)];
      os.events := os.events + [FileActionsDestroy, SpawnAttrDestroy];
      if reply.ret != 0 {
        os.errno := reply.ret;
        return -1;
      }
      return reply.pid;
    } else {
      r := Primer.PrimerExecute(os, ctx.execPath.value, ctx.execArgv.value, os.environ,
                                ctx.stateChanges, tmp, loaderReply);
    }
  }
}
