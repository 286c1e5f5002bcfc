/** The data model of the fork-replacement pipeline (spork/spork.h): the
    pattern and action enumerations, the tagged state-change record, the
    NULL-terminated argument vectors and the fork context. */
module SporkTypes {
  import opened Wrappers

  /** fork_pattern_t */
  datatype ForkPattern = ForkExec | Worker | Snapshot

  /** The integer value of each pattern enumerator. */
  function PatternCode(p: ForkPattern): (code: int)
  {
    match p
    case ForkExec => 1
    case Worker => 2
    case Snapshot => 3
  }

  /** Reading a pattern back from its integer: exactly 1, 2 and 3 are
      patterns, and each names the pattern whose code it is. */
  function PatternOf(code: int): (p: Option<ForkPattern>)
    ensures p.Some? <==> 1 <= code <= 3
    ensures p.Some? ==> PatternCode(p.value) == code
  {
    if code == 1 then Some(ForkExec)
    else if code == 2 then Some(Worker)
    else if code == 3 then Some(Snapshot)
    else None
  }

  /** An address in the launcher's address space; 0 stands for NULL. The
      setenv, chdir and signal payloads are such addresses, not the strings
      or the handler code they point to. */
  type Ptr = nat

  /** process_state_change_t: the action tag together with the one union
      member the tag names. uid_t and gid_t are unsigned. */
  datatype StateChange =
    | NoAction
    | SignalHandler(signum: int, handler: Ptr)
    | CloseFd(fd: int)
    | DupFd(oldfd: int, newfd: int)
    | SetEnv(name: Ptr, value: Ptr)
    | ChDir(path: Ptr)
    | SetUid(uid: nat)
    | SetGid(gid: nat)

  /** The primer_action_t value stored in a record's tag field. */
  function ActionTag(c: StateChange): (tag: int)
  {
    match c
    case NoAction => 0
    case SignalHandler(_, _) => 1
    case CloseFd(_) => 2
    case DupFd(_, _) => 3
    case SetEnv(_, _) => 4
    case ChDir(_) => 5
    case SetUid(_) => 6
    case SetGid(_) => 7
  }

  /** The tag determines the variant: two records share a tag exactly when
      they are the same kind of change, and every tag is one of 0..7. */
  lemma ActionTagsDistinct(c: StateChange, d: StateChange)
    ensures 0 <= ActionTag(c) <= 7
    ensures ActionTag(c) == ActionTag(d) <==> SameKind(c, d)
  {
  }

  predicate SameKind(c: StateChange, d: StateChange)
  {
    (c.NoAction? && d.NoAction?) || (c.SignalHandler? && d.SignalHandler?) ||
    (c.CloseFd? && d.CloseFd?) || (c.DupFd? && d.DupFd?) ||
    (c.SetEnv? && d.SetEnv?) || (c.ChDir? && d.ChDir?) ||
    (c.SetUid? && d.SetUid?) || (c.SetGid? && d.SetGid?)
  }

  /** The addresses a record carries in its payload. */
  function Pointers(c: StateChange): (ps: seq<Ptr>)
    ensures ps != [] <==> c.SignalHandler? || c.SetEnv? || c.ChDir?
  {
    match c
    case SignalHandler(_, h) => [h]
    case SetEnv(n, v) => [n, v]
    case ChDir(p) => [p]
    case _ => []
  }

  /** A C argument vector: `char *argv[]`, where None is a NULL entry. */
  type CArgv = seq<Option<string>>

  /** The vector holds a NULL entry, so a scan for the end stops inside it. */
  ghost predicate NullTerminated(argv: CArgv)
  {
    exists i :: 0 <= i < |argv| && argv[i] == None
  }

  /** The index of the first NULL entry: the C argc of the vector. */
  function FirstNull(argv: CArgv): (n: nat)
    requires NullTerminated(argv)
    ensures n < |argv| && argv[n] == None
    ensures forall i :: 0 <= i < n ==> argv[i].Some?
  {
    if argv[0] == None then 0
    else
      assert NullTerminated(argv[1..]) by {
        var j :| 0 <= j < |argv| && argv[j] == None;
        assert argv[1..][j - 1] == None;
      }
      1 + FirstNull(argv[1..])
  }

  /** The strings in front of the first NULL entry, in order. */
  function ArgStrings(argv: CArgv): (args: seq<string>)
    requires NullTerminated(argv)
    ensures |args| == FirstNull(argv)
    ensures forall i :: 0 <= i < |args| ==> argv[i] == Some(args[i])
  {
    var n := FirstNull(argv);
    seq(n, i requires 0 <= i < n => argv[i].value)
  }

  /** The C vector that holds `args` followed by one NULL entry. */
  function Terminated(args: seq<string>): (argv: CArgv)
    ensures |argv| == |args| + 1 && argv[|args|] == None
    ensures forall i :: 0 <= i < |args| ==> argv[i] == Some(args[i])
  {
    seq(|args|, i requires 0 <= i < |args| => Some(args[i])) + [None]
  }

  /** Terminating a list of strings and scanning it again gives the list
      back. */
  lemma ArgStringsOfTerminated(args: seq<string>)
    ensures NullTerminated(Terminated(args))
    ensures ArgStrings(Terminated(args)) == args
  {
    var argv := Terminated(args);
    assert argv[|args|] == None;
    assert FirstNull(argv) == |args|;
  }

  /** fork_context_t. `stateChanges` is the realloc'd array and
      `numChanges` its element count; a NULL `exec_path`, `exec_argv` or
      `exec_envp` is None. */
  class ForkContext {
    var pid: int
    var pattern: ForkPattern
    var execPath: Option<string>
    var execArgv: Option<CArgv>
    var execEnvp: Option<CArgv>
    var stateChanges: seq<StateChange>
    var numChanges: int
    var execFound: bool

    /** The count is the array's length, and an argument vector, when
        present, is NULL-terminated as the free loop and the spawners need. */
    ghost predicate Valid()
      reads this
    {
      numChanges == |stateChanges| &&
      (execArgv.Some? ==> NullTerminated(execArgv.value))
    }

    /** The zero-filled allocation together with the initial values that
        create_fork_context stores. */
    constructor ()
      ensures Valid()
      ensures pid == 0 && pattern == ForkExec && !execFound
      ensures execPath == None && execArgv == None && execEnvp == None
      ensures stateChanges == [] && numChanges == 0
    {
      pid := 0;
      pattern := ForkExec;
      execPath := None;
      execArgv := None;
      execEnvp := None;
      stateChanges := [];
      numChanges := 0;
      execFound := false;
    }
  }
}
