/** The loader executable (spork/primer_loader.c): read the state file,
    apply the changes to its own descriptors and signal dispositions in
    order, read the target, and exec it. */
module PrimerLoader {
  import opened Wrappers
  import opened SporkTypes
  import opened PrimerWire
  import opened OsModel
  import Primer

  /** What a descriptor refers to: an open-file description the loader
      inherited (identified by a number), or the state file it opened
      itself. */
  datatype File = Inherited(id: int) | StateFile

  /** The loader's process state: descriptor number to open-file
      description, signal number to installed handler address (a signal
      without an entry has its default disposition), and the descriptor
      limit, RLIMIT_NOFILE. */
  datatype ProcState = ProcState(fds: map<int, File>, handlers: map<int, Ptr>, fdLimit: int)

  /** Linux signal numbers run from 1 to NSIG - 1. */
  const NSIG := 65
  const SIGKILL := 9
  const SIGSTOP := 19
  /** glibc keeps these two real-time signals for its own threads. */
  const SIGCANCEL := 32
  const SIGSETXID := 33
  /** The handler addresses SIG_DFL and SIG_IGN. */
  const SIG_DFL: Ptr := 0
  const SIG_IGN: Ptr := 1

  /** The signals whose disposition signal() may change; for any other
      number it fails with EINVAL. */
  predicate Catchable(signum: int)
  {
    1 <= signum < NSIG && signum != SIGKILL && signum != SIGSTOP
    && signum != SIGCANCEL && signum != SIGSETXID
  }

  /** One change applied to the process state. The loader never checks the
      calls, so a failing one changes nothing: close of a descriptor that is
      not open, dup2 from a closed descriptor or onto a number outside
      0..fdLimit-1 (EBADF), signal on a number that is not catchable
      (EINVAL). Every tag without a case in the loader's switch (none,
      setenv, chdir, setuid, setgid) is a no-op. */
  function ApplyChange(st: ProcState, c: StateChange): ProcState
  {
    match c
    case CloseFd(fd) => st.(fds := st.fds - {fd})
    case DupFd(oldfd, newfd) =>
      if oldfd in st.fds && 0 <= newfd < st.fdLimit then st.(fds := st.fds[newfd := st.fds[oldfd]]) else st
    case SignalHandler(signum, handler) =>
      if Catchable(signum) then st.(handlers := st.handlers[signum := handler]) else st
    case _ => st
  }

  /** The changes applied in index order 0..n-1. */
  function ApplyAll(st: ProcState, changes: seq<StateChange>): ProcState
  {
    if changes == [] then st
    else ApplyChange(ApplyAll(st, changes[..|changes| - 1]), changes[|changes| - 1])
  }

  /** Changes the loader's switch does not handle. */
  predicate Inert(c: StateChange)
  {
    c.NoAction? || c.SetEnv? || c.ChDir? || c.SetUid? || c.SetGid?
  }

  /** What each handled change does when its call succeeds, that a failing
      call changes nothing, and that the other tags do nothing. */
  lemma ApplyChangeEffect(st: ProcState, c: StateChange)
    ensures ApplyChange(st, c).fdLimit == st.fdLimit
    ensures c.CloseFd? ==>
      ApplyChange(st, c).fds.Keys == st.fds.Keys - {c.fd}
      && (forall d :: d in ApplyChange(st, c).fds ==> ApplyChange(st, c).fds[d] == st.fds[d])
      && ApplyChange(st, c).handlers == st.handlers
    ensures c.DupFd? && c.oldfd in st.fds && 0 <= c.newfd < st.fdLimit ==>
      ApplyChange(st, c).fds.Keys == st.fds.Keys + {c.newfd}
      && ApplyChange(st, c).fds[c.newfd] == st.fds[c.oldfd]
      && (forall d :: d in st.fds && d != c.newfd ==> ApplyChange(st, c).fds[d] == st.fds[d])
      && ApplyChange(st, c).handlers == st.handlers
    ensures c.DupFd? && !(c.oldfd in st.fds && 0 <= c.newfd < st.fdLimit) ==> ApplyChange(st, c) == st
    ensures c.SignalHandler? && Catchable(c.signum) ==>
      ApplyChange(st, c).handlers.Keys == st.handlers.Keys + {c.signum}
      && ApplyChange(st, c).handlers[c.signum] == c.handler
      && (forall g :: g in st.handlers && g != c.signum ==> ApplyChange(st, c).handlers[g] == st.handlers[g])
      && ApplyChange(st, c).fds == st.fds
    ensures c.SignalHandler? && !Catchable(c.signum) ==> ApplyChange(st, c) == st
    ensures Inert(c) ==> ApplyChange(st, c) == st
  {
  }

  /** Applying a list in one go is applying its two halves one after the
      other: the order of the list is the order of application. */
  lemma {:induction false} ApplyAllAppend(st: ProcState, a: seq<StateChange>, b: seq<StateChange>)
    ensures ApplyAll(st, a + b) == ApplyAll(ApplyAll(st, a), b)
    decreases |b|
  {
    if b == [] {
      assert a + b == a;
    } else {
      var init := b[..|b| - 1];
      assert (a + b)[..|a + b| - 1] == a + init;
      ApplyAllAppend(st, a, init);
    }
  }

  /** A list made only of unhandled tags leaves the process as it was. */
  lemma {:induction false} ApplyAllInert(st: ProcState, changes: seq<StateChange>)
    requires forall i :: 0 <= i < |changes| ==> Inert(changes[i])
    ensures ApplyAll(st, changes) == st
    decreases |changes|
  {
    if changes != [] {
      ApplyAllInert(st, changes[..|changes| - 1]);
    }
  }

  /** Order matters: duplicating descriptor 3 onto 1 and then closing 3
      differs from closing 3 first. */
  lemma OrderMatters()
    ensures var st := ProcState(map[1 := Inherited(10), 3 := Inherited(30)], map[], 1024);
      ApplyAll(st, [DupFd(3, 1), CloseFd(3)]) != ApplyAll(st, [CloseFd(3), DupFd(3, 1)])
  {
    var st := ProcState(map[1 := Inherited(10), 3 := Inherited(30)], map[], 1024);
    assert [DupFd(3, 1), CloseFd(3)][..1] == [DupFd(3, 1)];
    assert [CloseFd(3), DupFd(3, 1)][..1] == [CloseFd(3)];
    assert [DupFd(3, 1)][..0] == [];
    assert [CloseFd(3)][..0] == [];
    assert ApplyAll(st, [DupFd(3, 1), CloseFd(3)]).fds[1] == Inherited(30);
    assert ApplyAll(st, [CloseFd(3), DupFd(3, 1)]).fds[1] == Inherited(10);
  }

  /** A change that closes fd or makes it refer to another description. */
  predicate Redirects(c: StateChange, fd: int)
  {
    (c.CloseFd? && c.fd == fd) || (c.DupFd? && c.newfd == fd && c.oldfd != fd)
  }

  /** A change that names fd at all. */
  predicate Mentions(c: StateChange, fd: int)
  {
    (c.CloseFd? && c.fd == fd) || (c.DupFd? && (c.oldfd == fd || c.newfd == fd))
  }

  /** A descriptor that no change closes or redirects keeps its
      description. */
  lemma {:induction false} ApplyAllKeeps(st: ProcState, changes: seq<StateChange>, fd: int)
    requires fd in st.fds
    requires forall i :: 0 <= i < |changes| ==> !Redirects(changes[i], fd)
    ensures fd in ApplyAll(st, changes).fds && ApplyAll(st, changes).fds[fd] == st.fds[fd]
    ensures ApplyAll(st, changes).fdLimit == st.fdLimit
    decreases |changes|
  {
    if changes != [] {
      ApplyAllKeeps(st, changes[..|changes| - 1], fd);
      assert !Redirects(changes[|changes| - 1], fd);
    }
  }

  /** One change that does not name fd acts on a state where fd is open as
      on the state without it, and does not open fd. */
  lemma ApplyChangeAway(st: ProcState, c: StateChange, fd: int, f: File)
    requires fd !in st.fds && !Mentions(c, fd)
    ensures fd !in ApplyChange(st, c).fds
    ensures ApplyChange(st.(fds := st.fds[fd := f]), c)
         == ApplyChange(st, c).(fds := ApplyChange(st, c).fds[fd := f])
  {
    match c
    case CloseFd(x) =>
      assert st.fds[fd := f] - {x} == (st.fds - {x})[fd := f];
    case DupFd(o, n) =>
      if o in st.fds && 0 <= n < st.fdLimit {
        assert st.fds[fd := f][n := st.fds[o]] == st.fds[n := st.fds[o]][fd := f];
      }
    case _ =>
  }

  /** Changes that never name fd act on a state where fd is open as on the
      state without it, and leave fd closed there. */
  lemma {:induction false} ApplyAllAway(st: ProcState, changes: seq<StateChange>, fd: int, f: File)
    requires fd !in st.fds
    requires forall i :: 0 <= i < |changes| ==> !Mentions(changes[i], fd)
    ensures fd !in ApplyAll(st, changes).fds
    ensures ApplyAll(st.(fds := st.fds[fd := f]), changes)
         == ApplyAll(st, changes).(fds := ApplyAll(st, changes).fds[fd := f])
    decreases |changes|
  {
    if changes != [] {
      var front := changes[..|changes| - 1];
      ApplyAllAway(st, front, fd, f);
      assert !Mentions(changes[|changes| - 1], fd);
      ApplyChangeAway(ApplyAll(st, front), changes[|changes| - 1], fd, f);
    }
  }

  /** The descriptors in use at or above k. */
  function UsedFrom(fds: map<int, File>, k: int): set<int>
  {
    set j | j in fds && j >= k
  }

  lemma UsedFromShrinks(fds: map<int, File>, k: int)
    requires k in fds
    ensures |UsedFrom(fds, k + 1)| < |UsedFrom(fds, k)|
  {
    assert UsedFrom(fds, k) == UsedFrom(fds, k + 1) + {k};
  }

  /** The lowest free descriptor at or above k. */
  function LowestFreeFrom(fds: map<int, File>, k: nat): (r: nat)
    ensures k <= r && r !in fds
    ensures forall j :: k <= j < r ==> j in fds
    decreases |UsedFrom(fds, k)|
  {
    if k !in fds then k
    else
      UsedFromShrinks(fds, k);
      LowestFreeFrom(fds, k + 1)
  }

  /** The descriptor open() hands out: the lowest number not in use. */
  function LowestFree(fds: map<int, File>): (r: nat)
    ensures r !in fds
    ensures forall j :: 0 <= j < r ==> j in fds
  {
    LowestFreeFrom(fds, 0)
  }

  /** The descriptor the loader's open of the state file receives. */
  function StateFd(init: ProcState): nat
  {
    LowestFree(init.fds)
  }

  /** The state after opening the state file on fd. */
  function Opened(st: ProcState, fd: int): ProcState
  {
    st.(fds := st.fds[fd := StateFile])
  }

  /** The state after close(fd). */
  function Closed(st: ProcState, fd: int): ProcState
  {
    st.(fds := st.fds - {fd})
  }

  /** Whether fd still reads from the state file. */
  predicate ReadsStateFile(st: ProcState, fd: int)
  {
    fd in st.fds && st.fds[fd] == StateFile
  }

  /** The process state execv hands to the new image: descriptors and the
      limit carry over, caught signals revert to the default disposition
      and ignored ones stay ignored. */
  function ExecImage(st: ProcState): ProcState
  {
    st.(handlers := map g | g in st.handlers && st.handlers[g] == SIG_IGN :: SIG_IGN)
  }

  /** How the loader process ends. */
  datatype LoaderOutcome =
    | Exit(status: int)
      /** execv replaced the image: target path, its argument vector, and
          the process state the target starts with (the loader's state after
          the changes and the close of the state file, with caught handlers
          reset by execv) */
    | Exec(path: string, argv: CArgv, state: ProcState)
      /** the stream was short or ill-formed, or a change closed or
          redirected the descriptor the loader still reads from; the loader
          does not check its reads, so what it then does is not determined */
    | Indeterminate

  /** The loader as a function of its arguments, the files it can open,
      its starting process state and whether execv succeeds. The state file
      is opened on the lowest free descriptor and is read again after the
      changes, so a change that closes or redirects that descriptor leaves
      the rest of the run undetermined. */
  function Load(argv: seq<string>, fs: map<string, seq<Token>>, init: ProcState, execOk: bool): LoaderOutcome
  {
    var fd := StateFd(init);
    if |argv| < 2 || argv[1] !in fs || fd >= init.fdLimit then Exit(1)
    else match DecodeChanges(fs[argv[1]])
      case None => Indeterminate
      case Some((changes, rest)) =>
        var st := ApplyAll(Opened(init, fd), changes);
        if !ReadsStateFile(st, fd) then Indeterminate
        else match DecodeTarget(rest)
          case None => Indeterminate
          case Some((path, args, _)) =>
            if execOk then Exec(path, Terminated(args), ExecImage(Closed(st, fd))) else Exit(1)
  }

  /** The strings read so far in front of the ones still to read. */
  function Prepend(got: seq<string>, r: Option<(seq<string>, seq<Token>)>): Option<(seq<string>, seq<Token>)>
  {
    match r
    case None => None
    case Some((more, tail)) => Some((got + more, tail))
  }

  lemma PrependNothing(r: Option<(seq<string>, seq<Token>)>)
    ensures Prepend([], r) == r
  {
    if r.Some? {
      assert [] + r.value.0 == r.value.0;
    }
  }

  /** The loader's apply loop: change i is applied after changes 0..i-1. */
  method ApplyChanges(init: ProcState, changes: seq<StateChange>) returns (st: ProcState)
    ensures st == ApplyAll(init, changes)
  {
    st := init;
    for i := 0 to |changes|
      invariant st == ApplyAll(init, changes[..i])
    {
      assert changes[..i + 1][..i] == changes[..i];
      st := ApplyChange(st, changes[i]);
    }
    assert changes[..|changes|] == changes;
  }

  /** The loader's argument loop: `argc` strings read into a fresh array of
      argc + 1 entries whose last entry is NULL. */
  method ReadTargetArgv(t: seq<Token>, argc: nat) returns (r: Option<(CArgv, seq<Token>)>)
    ensures r == match DecodeArgs(t, argc)
                 case None => None
                 case Some((args, tail)) => Some((Terminated(args), tail))
  {
    var targetArgv := new Option<string>[argc + 1](_ => None);
    var rest := ReadArgsInto(t, argc, targetArgv);
    if rest.None? {
      return None;
    }
    targetArgv[argc] := None;
    ghost var args := DecodeArgs(t, argc).value.0;
    assert targetArgv[..] == Terminated(args);
    return Some((targetArgv[..], rest.value));
  }

  /** The reads of the argument loop: on success the strings are in the
      first argc entries and the unread rest is returned. */
  method ReadArgsInto(t: seq<Token>, argc: nat, targetArgv: array<Option<string>>)
    returns (r: Option<seq<Token>>)
    requires targetArgv.Length == argc + 1
    modifies targetArgv
    ensures r.None? <==> DecodeArgs(t, argc).None?
    ensures r.Some? ==> r.value == DecodeArgs(t, argc).value.1
    ensures r.Some? ==> forall k :: 0 <= k < argc ==> targetArgv[k] == Some(DecodeArgs(t, argc).value.0[k])
  {
    ghost var want := DecodeArgs(t, argc);
    ReadArgsFromDecode([], t, argc);
    PrependNothing(want);
    var rest := t;
    ghost var got: seq<string> := [];
    for i := 0 to argc
      invariant |got| == i
      invariant forall k :: 0 <= k < i ==> targetArgv[k] == Some(got[k])
      invariant ReadArgsFrom(got, rest, argc - i) == want
    {
      var arg := DecodeString(rest);
      if arg.None? {
        return None;
      }
      var s := arg.value.0;
      StoreArg(targetArgv, i, s, got);
      got := got + [s];
      rest := arg.value.1;
    }
    return Some(rest);
  }

  /** `target_argv[i] = buf`: the entries before i keep the strings read
      so far and entry i receives the new one. */
  method StoreArg(a: array<Option<string>>, i: nat, s: string, ghost got: seq<string>)
    requires i < a.Length && |got| == i
    requires forall k :: 0 <= k < i ==> a[k] == Some(got[k])
    modifies a
    ensures forall k :: 0 <= k < i + 1 ==> a[k] == Some((got + [s])[k])
  {
    a[i] := Some(s);
  }

  /** The argument reads as the loop sees them: `got` already read and
      `k` more to read from `t`. */
  function ReadArgsFrom(got: seq<string>, t: seq<Token>, k: nat): Option<(seq<string>, seq<Token>)>
    decreases k
  {
    if k == 0 then Some((got, t))
    else match DecodeString(t)
      case None => None
      case Some((s, rest)) => ReadArgsFrom(got + [s], rest, k - 1)
  }

  /** Reading with `got` in hand is decoding the rest and putting `got`
      in front. */
  lemma {:induction false} ReadArgsFromDecode(got: seq<string>, t: seq<Token>, k: nat)
    ensures ReadArgsFrom(got, t, k) == Prepend(got, DecodeArgs(t, k))
    decreases k
  {
    if k == 0 {
      assert got + [] == got;
    } else {
      match DecodeString(t)
      case None =>
      case Some((s, rest)) =>
        ReadArgsFromDecode(got + [s], rest, k - 1);
        PrependTwice(got, [s], DecodeArgs(rest, k - 1));
    }
  }

  lemma PrependTwice(a: seq<string>, b: seq<string>, r: Option<(seq<string>, seq<Token>)>)
    ensures Prepend(a, Prepend(b, r)) == Prepend(a + b, r)
  {
    if r.Some? {
      assert a + (b + r.value.0) == (a + b) + r.value.0;
    }
  }

  /** main of the loader. */
  method LoaderMain(argv: seq<string>, fs: map<string, seq<Token>>, init: ProcState, execOk: bool)
    returns (out: LoaderOutcome)
    ensures out == Load(argv, fs, init, execOk)
  {
    if |argv| < 2 {
      return Exit(1);
    }
    var stateFile := argv[1];
    var fd := StateFd(init);
    if stateFile !in fs || fd >= init.fdLimit {
      return Exit(1);
    }
    var data := fs[stateFile];

    var count := ReadInt(data);
    if count.None? || count.value.0 < 0 {
      return Indeterminate;
    }
    var records := ReadRecords(count.value.1, count.value.0);
    if records.None? {
      return Indeterminate;
    }
    var st := ApplyChanges(Opened(init, fd), records.value.0);
    if !ReadsStateFile(st, fd) {
      return Indeterminate;
    }

    var targetPath := DecodeString(records.value.1);
    if targetPath.None? {
      return Indeterminate;
    }
    var argcTok := ReadInt(targetPath.value.1);
    if argcTok.None? || argcTok.value.0 < 0 {
      return Indeterminate;
    }
    var targetArgv := ReadTargetArgv(argcTok.value.1, argcTok.value.0);
    if targetArgv.None? {
      return Indeterminate;
    }
    st := Closed(st, fd);
    if !execOk {
      return Exit(1);
    }
    return Exec(targetPath.value.0, targetArgv.value.0, ExecImage(st));
  }

  /** Changes that leave the state file's descriptor alone keep it readable;
      changes that never name it give the target the state they give the
      loader's starting state. */
  lemma StateFileKept(init: ProcState, changes: seq<StateChange>)
    requires forall i :: 0 <= i < |changes| ==> !Redirects(changes[i], StateFd(init))
    ensures ReadsStateFile(ApplyAll(Opened(init, StateFd(init)), changes), StateFd(init))
    ensures (forall i :: 0 <= i < |changes| ==> !Mentions(changes[i], StateFd(init))) ==>
            Closed(ApplyAll(Opened(init, StateFd(init)), changes), StateFd(init)) == ApplyAll(init, changes)
  {
    var fd := StateFd(init);
    ApplyAllKeeps(Opened(init, fd), changes, fd);
    if forall i :: 0 <= i < |changes| ==> !Mentions(changes[i], fd) {
      ApplyAllAway(init, changes, fd, StateFile);
      var st := ApplyAll(init, changes);
      assert st.fds[fd := StateFile] - {fd} == st.fds;
    }
  }

  /** On an encoded transfer the loader execs the target exactly when the
      changes leave its descriptor reading the state file, and is otherwise
      undetermined. */
  lemma LoadOfTransfer(argv: seq<string>, fs: map<string, seq<Token>>, init: ProcState,
                       changes: seq<StateChange>, path: string, args: seq<string>, rest: seq<Token>)
    requires |argv| >= 2 && argv[1] in fs
    requires fs[argv[1]] == Encode(changes, path, args) + rest
    requires NUL !in path
    requires forall i :: 0 <= i < |args| ==> NUL !in args[i]
    requires StateFd(init) < init.fdLimit
    ensures ReadsStateFile(ApplyAll(Opened(init, StateFd(init)), changes), StateFd(init)) ==>
            Load(argv, fs, init, true)
            == Exec(path, Terminated(args),
                    ExecImage(Closed(ApplyAll(Opened(init, StateFd(init)), changes), StateFd(init))))
    ensures !ReadsStateFile(ApplyAll(Opened(init, StateFd(init)), changes), StateFd(init)) ==>
            Load(argv, fs, init, true) == Indeterminate
    ensures ReadsStateFile(ApplyAll(Opened(init, StateFd(init)), changes), StateFd(init)) ==>
            Load(argv, fs, init, false) == Exit(1)
  {
    DecodeStreamOf(changes, path, args, rest);
  }

  /** The loader, handed a file that holds an encoded transfer whose changes
      leave its own descriptor alone, execs the transferred target with the
      transferred arguments after applying the transferred changes in order.
      When no change names that descriptor at all, the target sees exactly
      the changes applied to the loader's starting state. */
  lemma LoaderRunsTransfer(argv: seq<string>, fs: map<string, seq<Token>>, init: ProcState,
                           changes: seq<StateChange>, path: string, args: seq<string>, rest: seq<Token>)
    requires |argv| >= 2 && argv[1] in fs
    requires fs[argv[1]] == Encode(changes, path, args) + rest
    requires NUL !in path
    requires forall i :: 0 <= i < |args| ==> NUL !in args[i]
    requires StateFd(init) < init.fdLimit
    requires forall i :: 0 <= i < |changes| ==> !Redirects(changes[i], StateFd(init))
    ensures Load(argv, fs, init, true)
         == Exec(path, Terminated(args),
                 ExecImage(Closed(ApplyAll(Opened(init, StateFd(init)), changes), StateFd(init))))
    ensures (forall i :: 0 <= i < |changes| ==> !Mentions(changes[i], StateFd(init))) ==>
            Load(argv, fs, init, true) == Exec(path, Terminated(args), ExecImage(ApplyAll(init, changes)))
    ensures Load(argv, fs, init, false) == Exit(1)
  {
    LoadOfTransfer(argv, fs, init, changes, path, args, rest);
    StateFileKept(init, changes);
  }

  /** The loader with its reads put first: the whole stream is read and the
      state file closed before any change is applied. */
  function LoadReadingFirst(argv: seq<string>, fs: map<string, seq<Token>>, init: ProcState, execOk: bool): LoaderOutcome
  {
    var fd := StateFd(init);
    if |argv| < 2 || argv[1] !in fs || fd >= init.fdLimit then Exit(1)
    else match DecodeChanges(fs[argv[1]])
      case None => Indeterminate
      case Some((changes, rest)) =>
        match DecodeTarget(rest)
        case None => Indeterminate
        case Some((path, args, _)) =>
          var st := ApplyAll(Closed(Opened(init, fd), fd), changes);
          if execOk then Exec(path, Terminated(args), ExecImage(st)) else Exit(1)
  }

  /** Reading first, every encoded transfer, whatever descriptors its
      changes name, makes the loader exec the target with the changes
      applied in order to its starting state. */
  lemma LoadReadingFirstRunsTransfer(argv: seq<string>, fs: map<string, seq<Token>>, init: ProcState,
                                     changes: seq<StateChange>, path: string, args: seq<string>, rest: seq<Token>)
    requires |argv| >= 2 && argv[1] in fs
    requires fs[argv[1]] == Encode(changes, path, args) + rest
    requires NUL !in path
    requires forall i :: 0 <= i < |args| ==> NUL !in args[i]
    requires StateFd(init) < init.fdLimit
    ensures LoadReadingFirst(argv, fs, init, true) == Exec(path, Terminated(args), ExecImage(ApplyAll(init, changes)))
    ensures LoadReadingFirst(argv, fs, init, false) == Exit(1)
  {
    var fd := StateFd(init);
    DecodeStreamOf(changes, path, args, rest);
    assert init.fds[fd := StateFile] - {fd} == init.fds;
  }

  /** As written, a transfer whose change closes descriptor 3, or dups
      stdout onto it, sent to a loader that starts with 0, 1 and 2 open,
      leaves the loader reading its target from a closed descriptor or from
      stdout; reading first, the same transfer execs the target. */
  lemma LoaderLosesStateFile()
    ensures var init := ProcState(map[0 := Inherited(0), 1 := Inherited(1), 2 := Inherited(2)], map[], 1024);
            var closing := map["state" := Encode([CloseFd(3)], "/bin/echo", ["echo"])];
            var dupping := map["state" := Encode([DupFd(1, 3)], "/bin/echo", ["echo"])];
            Load([Primer.PRIMER_PATH, "state"], closing, init, true) == Indeterminate
            && Load([Primer.PRIMER_PATH, "state"], dupping, init, true) == Indeterminate
            && LoadReadingFirst([Primer.PRIMER_PATH, "state"], closing, init, true)
               == Exec("/bin/echo", Terminated(["echo"]), ExecImage(ApplyAll(init, [CloseFd(3)])))
  {
    var init := ProcState(map[0 := Inherited(0), 1 := Inherited(1), 2 := Inherited(2)], map[], 1024);
    assert StateFd(init) == 3 by {
      assert 0 in init.fds && 1 in init.fds && 2 in init.fds && 3 !in init.fds;
    }
    var argv, args := [Primer.PRIMER_PATH, "state"], ["echo"];
    assert NUL !in args[0];
    var closing := map["state" := Encode([CloseFd(3)], "/bin/echo", args)];
    var dupping := map["state" := Encode([DupFd(1, 3)], "/bin/echo", args)];
    assert closing["state"] == Encode([CloseFd(3)], "/bin/echo", args) + [];
    assert dupping["state"] == Encode([DupFd(1, 3)], "/bin/echo", args) + [];
    assert [CloseFd(3)][..0] == [] && [DupFd(1, 3)][..0] == [];
    assert !ReadsStateFile(ApplyAll(Opened(init, 3), [CloseFd(3)]), 3);
    assert ApplyAll(Opened(init, 3), [DupFd(1, 3)]) == ApplyChange(Opened(init, 3), DupFd(1, 3));
    assert 1 in Opened(init, 3).fds;
    assert ApplyAll(Opened(init, 3), [DupFd(1, 3)]).fds[3] == Inherited(1);
    LoadOfTransfer(argv, closing, init, [CloseFd(3)], "/bin/echo", args, []);
    LoadOfTransfer(argv, dupping, init, [DupFd(1, 3)], "/bin/echo", args, []);
    LoadReadingFirstRunsTransfer(argv, closing, init, [CloseFd(3)], "/bin/echo", args, []);
  }

  /** End to end: the file primer_execute writes, opened by the loader it
      spawns with [PRIMER_PATH, file], makes the loader exec the target with
      the caller's arguments and the caller's changes applied in order, as
      long as no change touches the loader's own descriptor; reading first,
      it does so whatever the changes. The primer unlinks the file right
      after the spawn, racing with the loader's open: if the unlink comes
      first, the loader finds no file and exits with 1. */
  lemma PrimerThenLoader(name: string, fs: map<string, seq<Token>>, init: ProcState,
                         changes: seq<StateChange>, path: string, args: seq<string>)
    requires name in fs && fs[name] == Written(Primer.PrimerWrites(name, changes, path, args), name)
    requires NUL !in path
    requires forall i :: 0 <= i < |args| ==> NUL !in args[i]
    requires StateFd(init) < init.fdLimit
    ensures (forall i :: 0 <= i < |changes| ==> !Mentions(changes[i], StateFd(init))) ==>
            Load([Primer.PRIMER_PATH, name], fs, init, true)
            == Exec(path, Terminated(args), ExecImage(ApplyAll(init, changes)))
    ensures LoadReadingFirst([Primer.PRIMER_PATH, name], fs, init, true)
         == Exec(path, Terminated(args), ExecImage(ApplyAll(init, changes)))
    ensures Load([Primer.PRIMER_PATH, name], fs - {name}, init, true) == Exit(1)
  {
    Primer.PrimerWritesEncode(name, changes, path, args);
    assert fs[name] == Encode(changes, path, args) + [];
    LoadReadingFirstRunsTransfer([Primer.PRIMER_PATH, name], fs, init, changes, path, args, []);
    if forall i :: 0 <= i < |changes| ==> !Mentions(changes[i], StateFd(init)) {
      LoaderRunsTransfer([Primer.PRIMER_PATH, name], fs, init, changes, path, args, []);
    }
  }
}
