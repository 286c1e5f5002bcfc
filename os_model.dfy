/** The operating-system calls the pipeline makes, seen from the caller:
    an ordered log of the calls, `errno`, and the inherited environment.
    What a call reports back (a spawn's return code and pid, the name
    mkstemp chose, whether an allocation succeeded) is an input. */
module OsModel {
  import opened Wrappers
  import opened SporkTypes
  import opened PrimerWire

  const EINVAL: int := 22
  const ENOMEM: int := 12
  const ENOSYS: int := 38

  datatype Event =
    | FileActionsInit
    | FileActionsDestroy
    | SpawnAttrInit
    | SpawnAttrDestroy
    | Spawn(path: string, argv: CArgv, envp: CArgv)
    | TempCreated(name: string)
    | Write(name: string, data: seq<Token>)
    | Close(name: string)
    | Unlink(name: string)
    | NativeFork

  /** What posix_spawn reports: its return code and the pid it stored. */
  datatype SpawnReply = SpawnReply(ret: int, pid: int)

  /** What mkstemp reports: the file it created, or failure with errno. */
  datatype TempReply = TempFile(name: string) | TempFailed(err: int)

  /** The caller-visible result of a spawn: -1 on a non-zero return code,
      the child's pid otherwise. */
  function SpawnResult(reply: SpawnReply): (r: int)
    ensures reply.ret != 0 ==> r == -1
    ensures reply.ret == 0 ==> r == reply.pid
  {
    if reply.ret != 0 then -1 else reply.pid
  }

  /** errno after a spawn: the return code on failure, untouched otherwise. */
  function ErrnoAfterSpawn(errno: int, reply: SpawnReply): (e: int)
    ensures reply.ret != 0 ==> e == reply.ret
    ensures reply.ret == 0 ==> e == errno
  {
    if reply.ret != 0 then reply.ret else errno
  }

  /** The bytes written to file `name` by the calls in `events`, in order. */
  function Written(events: seq<Event>, name: string): seq<Token>
  {
    if events == [] then []
    else
      var last := events[|events| - 1];
      Written(events[..|events| - 1], name) + (if last.Write? && last.name == name then last.data else [])
  }

  /** One more call adds what it wrote to `name`, if anything. */
  lemma WrittenSnoc(events: seq<Event>, e: Event, name: string)
    ensures Written(events + [e], name)
         == Written(events, name) + (if e.Write? && e.name == name then e.data else [])
  {
    assert (events + [e])[..|events|] == events;
  }

  /** Writes to a file accumulate: the contents after two runs of calls is
      the contents after the first followed by what the second wrote. */
  lemma {:induction false} WrittenAppend(a: seq<Event>, b: seq<Event>, name: string)
    ensures Written(a + b, name) == Written(a, name) + Written(b, name)
    decreases |b|
  {
    if b == [] {
      assert a + b == a;
    } else {
      var init, e := b[..|b| - 1], b[|b| - 1];
      var d := if e.Write? && e.name == name then e.data else [];
      assert b == init + [e];
      assert a + b == (a + init) + [e];
      calc {
        Written(a + b, name);
        { WrittenSnoc(a + init, e, name); }
        Written(a + init, name) + d;
        { WrittenAppend(a, init, name); }
        (Written(a, name) + Written(init, name)) + d;
        Written(a, name) + (Written(init, name) + d);
        { WrittenSnoc(init, e, name); }
        Written(a, name) + Written(b, name);
      }
    }
  }

  class Os {
    var events: seq<Event>
    var errno: int
    var environ: CArgv

    constructor (environ: CArgv)
      ensures this.events == [] && this.errno == 0 && this.environ == environ
    {
      this.events := [];
      this.errno := 0;
      this.environ := environ;
    }
  }
}
