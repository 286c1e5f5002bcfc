/** The launcher side of the state transfer (spork/primer.c): write the
    changes and the target to a fresh temporary file, start the loader on
    that file, remove the file's name. */
module Primer {
  import opened Wrappers
  import opened SporkTypes
  import opened PrimerWire
  import opened OsModel
  import opened Seqs

  const PRIMER_PATH: string := "./primer"

  /** The loader's own argument vector: its path and the state file. */
  function LoaderArgv(tmpName: string): CArgv
  {
    [Some(PRIMER_PATH), Some(tmpName), None]
  }

  /** The write calls for the arguments: for each, its length and then its
      bytes. */
  function ArgWrites(name: string, args: seq<string>): seq<Event>
  {
    if args == [] then []
    else
      var s := args[|args| - 1];
      ArgWrites(name, args[..|args| - 1]) + [Write(name, [Size(|s| + 1)]), Write(name, Bytes(s + [NUL]))]
  }

  /** The write calls primer_execute makes, one event per `write`. */
  function PrimerWrites(name: string, changes: seq<StateChange>, path: string, args: seq<string>): seq<Event>
  {
    [ Write(name, [Int(|changes|)]),
      Write(name, Records(changes)),
      Write(name, [Size(|path| + 1)]),
      Write(name, Bytes(path + [NUL])),
      Write(name, [Int(|args|)]) ]
    + ArgWrites(name, args)
  }

  lemma {:induction false} ArgWritesEncode(name: string, args: seq<string>)
    ensures Written(ArgWrites(name, args), name) == EncodeArgs(args)
    decreases |args|
  {
    if args != [] {
      var init := args[..|args| - 1];
      var s := args[|args| - 1];
      var e1, e2 := Write(name, [Size(|s| + 1)]), Write(name, Bytes(s + [NUL]));
      var before := ArgWrites(name, init);
      calc {
        Written(ArgWrites(name, args), name);
        { assert ArgWrites(name, args) == (before + [e1]) + [e2]; }
        Written((before + [e1]) + [e2], name);
        { WrittenSnoc(before + [e1], e2, name); }
        Written(before + [e1], name) + Bytes(s + [NUL]);
        { WrittenSnoc(before, e1, name); }
        (Written(before, name) + [Size(|s| + 1)]) + Bytes(s + [NUL]);
        { ArgWritesEncode(name, init); }
        (EncodeArgs(init) + [Size(|s| + 1)]) + Bytes(s + [NUL]);
        EncodeArgs(init) + EncodeString(s);
      }
    }
  }

  /** The file the loader is handed holds exactly the encoded transfer. */
  lemma PrimerWritesEncode(name: string, changes: seq<StateChange>, path: string, args: seq<string>)
    ensures Written(PrimerWrites(name, changes, path, args), name) == Encode(changes, path, args)
  {
    var w0, w1, w2, w3, w4 := Write(name, [Int(|changes|)]), Write(name, Records(changes)),
      Write(name, [Size(|path| + 1)]), Write(name, Bytes(path + [NUL])), Write(name, [Int(|args|)]);
    var p0: seq<Event> := [];
    var p1 := p0 + [w0];
    var p2 := p1 + [w1];
    var p3 := p2 + [w2];
    var p4 := p3 + [w3];
    var p5 := p4 + [w4];
    WrittenSnoc(p0, w0, name);
    WrittenSnoc(p1, w1, name);
    WrittenSnoc(p2, w2, name);
    WrittenSnoc(p3, w3, name);
    WrittenSnoc(p4, w4, name);
    var head := [Int(|changes|)] + Records(changes) + EncodeString(path) + [Int(|args|)];
    calc {
      Written(p5, name);
      (((([] + [Int(|changes|)]) + Records(changes)) + [Size(|path| + 1)]) + Bytes(path + [NUL])) + [Int(|args|)];
      { assert [] + [Int(|changes|)] == [Int(|changes|)]; }
      ((([Int(|changes|)] + Records(changes)) + [Size(|path| + 1)]) + Bytes(path + [NUL])) + [Int(|args|)];
      head;
    }
    assert p5 == [w0, w1, w2, w3, w4];
    WrittenAppend(p5, ArgWrites(name, args), name);
    ArgWritesEncode(name, args);
  }

  /** `while (argv[argc]) argc++`: the number of entries before the first
      NULL. */
  method CountArgs(argv: CArgv) returns (argc: nat)
    requires NullTerminated(argv)
    ensures argc < |argv| && argv[argc] == None
    ensures forall i :: 0 <= i < argc ==> argv[i].Some?
  {
    argc := 0;
    while argv[argc] != None
      invariant argc < |argv|
      invariant forall i :: 0 <= i < argc ==> argv[i].Some?
      invariant exists j :: argc <= j < |argv| && argv[j] == None
      decreases |argv| - argc
    {
      argc := argc + 1;
    }
  }

  /** The argument loop of primer_execute: each argument's length, then its
      bytes. */
  method WriteArgs(os: Os, name: string, argv: CArgv, argc: nat)
    requires NullTerminated(argv) && argc == FirstNull(argv)
    modifies os
    ensures os.environ == old(os.environ) && os.errno == old(os.errno)
    ensures os.events == old(os.events) + ArgWrites(name, ArgStrings(argv))
  {
    ghost var args := ArgStrings(argv);
    for i := 0 to argc
      invariant os.events == old(os.events) + ArgWrites(name, args[..i])
      invariant os.environ == old(os.environ) && os.errno == old(os.errno)
    {
      var arg := argv[i].value;
      assert arg == args[i];
      assert args[..i + 1][..i] == args[..i];
      os.events := os.events + [Write(name, [Size(|arg| + 1)]), Write(name, Bytes(arg + [NUL]))];
    }
    assert args[..argc] == args;
  }

  /** The writes of primer_execute, in order: the change count, the
      records, the path's length and bytes, argc, and each argument. */
  method WriteStream(os: Os, name: string, changes: seq<StateChange>, targetPath: string, argv: CArgv)
    requires NullTerminated(argv)
    modifies os
    ensures os.environ == old(os.environ) && os.errno == old(os.errno)
    ensures os.events == old(os.events) + PrimerWrites(name, changes, targetPath, ArgStrings(argv))
  {
    ghost var start := os.events;
    var w0, w1 := Write(name, [Int(|changes|)]), Write(name, Records(changes));
    var w2, w3 := Write(name, [Size(|targetPath| + 1)]), Write(name, Bytes(targetPath + [NUL]));
    os.events := os.events + [w0, w1];
    os.events := os.events + [w2, w3];
    var argc := CountArgs(argv);
    assert argc == FirstNull(argv);
    var w4 := Write(name, [Int(argc)]);
    os.events := os.events + [w4];
    calc {
      os.events;
      ((start + [w0, w1]) + [w2, w3]) + [w4];
      { AppendAssoc(start, [w0, w1], [w2, w3]); }
      (start + ([w0, w1] + [w2, w3])) + [w4];
      { AppendAssoc(start, [w0, w1] + [w2, w3], [w4]); }
      start + (([w0, w1] + [w2, w3]) + [w4]);
      { assert ([w0, w1] + [w2, w3]) + [w4] == [w0, w1, w2, w3, w4]; }
      start + [w0, w1, w2, w3, w4];
    }
    WriteArgs(os, name, argv, argc);
    AppendAssoc(start, [w0, w1, w2, w3, w4], ArgWrites(name, ArgStrings(argv)));
  }

  /** primer_execute. On a failed mkstemp: -1, nothing written or spawned.
      Otherwise the stream is written (write results are not checked), the
      loader is spawned with [PRIMER_PATH, file], the file's name is
      removed whatever the spawn did, and the spawn's outcome is returned. */
  method PrimerExecute(os: Os, targetPath: string, argv: CArgv, envp: CArgv,
                       changes: seq<StateChange>, tmp: TempReply, reply: SpawnReply)
    returns (r: int)
    requires NullTerminated(argv)
    modifies os
    ensures os.environ == old(os.environ)
    ensures tmp.TempFailed? ==>
      r == -1 && os.errno == tmp.err && os.events == old(os.events)
    ensures tmp.TempFile? ==>
      os.events == old(os.events) + [TempCreated(tmp.name)]
                   + PrimerWrites(tmp.name, changes, targetPath, ArgStrings(argv))
                   + [Close(tmp.name), Spawn(PRIMER_PATH, LoaderArgv(tmp.name), envp), Unlink(tmp.name)]
      && r == SpawnResult(reply)
      && os.errno == ErrnoAfterSpawn(old(os.errno), reply)
  {
    if tmp.TempFailed? {
      os.errno := tmp.err;
      return -1;
    }
    var name := tmp.name;
    os.events := os.events + [TempCreated(name)];
    WriteStream(os, name, changes, targetPath, argv);
    os.events := os.events + [Close(name), Spawn(PRIMER_PATH, LoaderArgv(name), envp), Unlink(name)];
    if reply.ret != 0 {
      os.errno := reply.ret;
      return -1;
    }
    return reply.pid;
  }
}
