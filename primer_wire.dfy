/** The state file written by primer_execute (spork/primer.c) and read back
    by the loader (spork/primer_loader.c). Each token is one fixed-width
    field of the stream: an `int`, a `size_t`, one raw
    process_state_change_t record, or one byte. */
module PrimerWire {
  import opened Wrappers
  import opened SporkTypes
  import opened Seqs

  datatype Token = Int(v: int) | Size(n: nat) | Record(change: StateChange) | Byte(b: char)

  const NUL: char := '\0'

  /** What the loader gets back: the changes, the target path and the
      target's arguments. */
  datatype Transfer = Transfer(changes: seq<StateChange>, path: string, args: seq<string>)

  // ---------------------------------------------------------------- writer

  function Bytes(s: string): (t: seq<Token>)
    ensures |t| == |s|
    ensures forall i :: 0 <= i < |s| ==> t[i] == Byte(s[i])
  {
    seq(|s|, i requires 0 <= i < |s| => Byte(s[i]))
  }

  /** The raw copy of the change array: one record token per change. */
  function Records(changes: seq<StateChange>): (t: seq<Token>)
    ensures |t| == |changes|
    ensures forall i :: 0 <= i < |changes| ==> t[i] == Record(changes[i])
  {
    seq(|changes|, i requires 0 <= i < |changes| => Record(changes[i]))
  }

  /** A C string on the wire: its length strlen+1, then its bytes with the
      terminating NUL. */
  function EncodeString(s: string): seq<Token>
  {
    [Size(|s| + 1)] + Bytes(s + [NUL])
  }

  /** The arguments one after another, in order. */
  function EncodeArgs(args: seq<string>): seq<Token>
  {
    if args == [] then []
    else EncodeArgs(args[..|args| - 1]) + EncodeString(args[|args| - 1])
  }

  /** The whole stream: count, records, path, argc, arguments. */
  function Encode(changes: seq<StateChange>, path: string, args: seq<string>): seq<Token>
  {
    [Int(|changes|)] + Records(changes) + EncodeString(path) + [Int(|args|)] + EncodeArgs(args)
  }

  // ---------------------------------------------------------------- reader
  // Each reader takes the unread rest of the stream and returns the value
  // read with the new rest; None is a short or ill-typed read.

  function ReadInt(t: seq<Token>): Option<(int, seq<Token>)>
  {
    if |t| > 0 && t[0].Int? then Some((t[0].v, t[1..])) else None
  }

  function ReadSize(t: seq<Token>): Option<(nat, seq<Token>)>
  {
    if |t| > 0 && t[0].Size? then Some((t[0].n, t[1..])) else None
  }

  function ReadRecords(t: seq<Token>, n: nat): (r: Option<(seq<StateChange>, seq<Token>)>)
    ensures r.Some? ==> |r.value.0| == n
  {
    if n <= |t| && forall i :: 0 <= i < n ==> t[i].Record? then
      Some((seq(n, i requires 0 <= i < n => t[i].change), t[n..]))
    else None
  }

  function ReadBytes(t: seq<Token>, n: nat): (r: Option<(seq<char>, seq<Token>)>)
    ensures r.Some? ==> |r.value.0| == n
  {
    if n <= |t| && forall i :: 0 <= i < n ==> t[i].Byte? then
      Some((seq(n, i requires 0 <= i < n => t[i].b), t[n..]))
    else None
  }

  /** The C string held in a buffer: the bytes before the first NUL. A
      buffer without a NUL is None (a reader would run past its end). */
  function CStringOf(buf: seq<char>): (r: Option<string>)
    ensures r.Some? ==> NUL !in r.value && |r.value| < |buf| && buf[|r.value|] == NUL
    ensures r.Some? ==> r.value == buf[..|r.value|]
    ensures r.None? ==> NUL !in buf
  {
    if buf == [] then None
    else if buf[0] == NUL then Some([])
    else match CStringOf(buf[1..])
      case None => None
      case Some(s) => Some([buf[0]] + s)
  }

  function DecodeString(t: seq<Token>): Option<(string, seq<Token>)>
  {
    match ReadSize(t)
    case None => None
    case Some((len, rest)) =>
      match ReadBytes(rest, len)
      case None => None
      case Some((buf, rest')) =>
        match CStringOf(buf)
        case None => None
        case Some(s) => Some((s, rest'))
  }

  /** `k` strings, front to back. */
  function DecodeArgs(t: seq<Token>, k: nat): (r: Option<(seq<string>, seq<Token>)>)
    ensures r.Some? ==> |r.value.0| == k
  {
    if k == 0 then Some(([], t))
    else match DecodeString(t)
      case None => None
      case Some((s, rest)) =>
        match DecodeArgs(rest, k - 1)
        case None => None
        case Some((ss, rest')) => Some(([s] + ss, rest'))
  }

  /** The first part of the stream: the count and the records. A negative
      count is None (the loader's calloc cannot hold it). */
  function DecodeChanges(t: seq<Token>): Option<(seq<StateChange>, seq<Token>)>
  {
    match ReadInt(t)
    case None => None
    case Some((n, rest)) =>
      if n < 0 then None else ReadRecords(rest, n)
  }

  /** The second part: path, argc and the arguments. */
  function DecodeTarget(t: seq<Token>): Option<(string, seq<string>, seq<Token>)>
  {
    match DecodeString(t)
    case None => None
    case Some((path, rest)) =>
      match ReadInt(rest)
      case None => None
      case Some((argc, rest')) =>
        if argc < 0 then None
        else match DecodeArgs(rest', argc)
          case None => None
          case Some((args, rest'')) => Some((path, args, rest''))
  }

  function Decode(t: seq<Token>): Option<Transfer>
  {
    match DecodeChanges(t)
    case None => None
    case Some((changes, rest)) =>
      match DecodeTarget(rest)
      case None => None
      case Some((path, args, _)) => Some(Transfer(changes, path, args))
  }

  // ------------------------------------------------------------ round trip

  /** Arguments are written one after the other, so the encoding of a
      longer list starts with the encoding of its first element. */
  lemma {:induction false} EncodeArgsCons(s: string, args: seq<string>)
    ensures EncodeArgs([s] + args) == EncodeString(s) + EncodeArgs(args)
    decreases |args|
  {
    if args == [] {
      assert ([s] + args)[..0] == [];
    } else {
      var all := [s] + args;
      var init, last := args[..|args| - 1], args[|args| - 1];
      assert all[..|all| - 1] == [s] + init && all[|all| - 1] == last;
      calc {
        EncodeArgs(all);
        EncodeArgs([s] + init) + EncodeString(last);
        { EncodeArgsCons(s, init); }
        (EncodeString(s) + EncodeArgs(init)) + EncodeString(last);
        EncodeString(s) + (EncodeArgs(init) + EncodeString(last));
        EncodeString(s) + EncodeArgs(args);
      }
    }
  }

  /** The bytes of a NUL-free string followed by its terminator read back
      as that string. */
  lemma {:induction false} CStringOfTerminated(s: string)
    requires NUL !in s
    ensures CStringOf(s + [NUL]) == Some(s)
  {
    if s != [] {
      assert (s + [NUL])[1..] == s[1..] + [NUL];
      CStringOfTerminated(s[1..]);
      assert [s[0]] + s[1..] == s;
    }
  }

  lemma ReadBytesOf(s: string, rest: seq<Token>)
    ensures ReadBytes(Bytes(s) + rest, |s|) == Some((s, rest))
  {
    var t := Bytes(s) + rest;
    assert t[|s|..] == rest;
    assert seq(|s|, i requires 0 <= i < |s| => t[i].b) == s;
  }

  lemma ReadRecordsOf(changes: seq<StateChange>, rest: seq<Token>)
    ensures ReadRecords(Records(changes) + rest, |changes|) == Some((changes, rest))
  {
    var t := Records(changes) + rest;
    assert t[|changes|..] == rest;
    assert seq(|changes|, i requires 0 <= i < |changes| => t[i].change) == changes;
  }

  lemma DecodeStringOf(s: string, rest: seq<Token>)
    requires NUL !in s
    ensures DecodeString(EncodeString(s) + rest) == Some((s, rest))
  {
    var t := EncodeString(s) + rest;
    assert t == [Size(|s| + 1)] + (Bytes(s + [NUL]) + rest);
    assert t[1..] == Bytes(s + [NUL]) + rest;
    ReadBytesOf(s + [NUL], rest);
    CStringOfTerminated(s);
  }

  lemma {:induction false} DecodeArgsOf(args: seq<string>, rest: seq<Token>)
    requires forall i :: 0 <= i < |args| ==> NUL !in args[i]
    ensures DecodeArgs(EncodeArgs(args) + rest, |args|) == Some((args, rest))
    decreases |args|
  {
    if args != [] {
      var tail := args[1..];
      assert args == [args[0]] + tail;
      EncodeArgsCons(args[0], tail);
      var t := EncodeArgs(args) + rest;
      assert t == EncodeString(args[0]) + (EncodeArgs(tail) + rest);
      DecodeStringOf(args[0], EncodeArgs(tail) + rest);
      DecodeArgsOf(tail, rest);
      assert DecodeArgs(t, |args|) == Some(([args[0]] + tail, rest));
    } else {
      assert EncodeArgs(args) + rest == rest;
    }
  }

  /** Round trip: what the launcher writes, the loader reads back - the same
      changes in the same order, the same path and the same arguments -
      whatever follows the stream. */
  lemma DecodeEncode(changes: seq<StateChange>, path: string, args: seq<string>, rest: seq<Token>)
    requires NUL !in path
    requires forall i :: 0 <= i < |args| ==> NUL !in args[i]
    ensures Decode(Encode(changes, path, args) + rest) == Some(Transfer(changes, path, args))
  {
    DecodeStreamOf(changes, path, args, rest);
  }

  /** The stream, followed by anything, decodes to its changes and then to
      its target, leaving what follows it. */
  lemma DecodeStreamOf(changes: seq<StateChange>, path: string, args: seq<string>, rest: seq<Token>)
    requires NUL !in path
    requires forall i :: 0 <= i < |args| ==> NUL !in args[i]
    ensures DecodeChanges(Encode(changes, path, args) + rest)
         == Some((changes, EncodeString(path) + ([Int(|args|)] + (EncodeArgs(args) + rest))))
    ensures DecodeTarget(EncodeString(path) + ([Int(|args|)] + (EncodeArgs(args) + rest)))
         == Some((path, args, rest))
  {
    var afterRecords := EncodeString(path) + ([Int(|args|)] + (EncodeArgs(args) + rest));
    EncodeRegroup(changes, path, args, rest);
    DecodeChangesOf(changes, afterRecords);
    DecodeTargetOf(path, args, rest);
  }

  /** The stream followed by anything, grouped from the right. */
  lemma EncodeRegroup(changes: seq<StateChange>, path: string, args: seq<string>, rest: seq<Token>)
    ensures Encode(changes, path, args) + rest
         == [Int(|changes|)] + (Records(changes) + (EncodeString(path) + ([Int(|args|)] + (EncodeArgs(args) + rest))))
  {
    var count, records, p, n, a := [Int(|changes|)], Records(changes), EncodeString(path), [Int(|args|)], EncodeArgs(args);
    calc {
      Encode(changes, path, args) + rest;
      ((((count + records) + p) + n) + a) + rest;
      { AppendAssoc(((count + records) + p) + n, a, rest); }
      (((count + records) + p) + n) + (a + rest);
      { AppendAssoc((count + records) + p, n, a + rest); }
      ((count + records) + p) + (n + (a + rest));
      { AppendAssoc(count + records, p, n + (a + rest)); }
      (count + records) + (p + (n + (a + rest)));
      { AppendAssoc(count, records, p + (n + (a + rest))); }
      count + (records + (p + (n + (a + rest))));
    }
  }

  lemma DecodeChangesOf(changes: seq<StateChange>, rest: seq<Token>)
    ensures DecodeChanges([Int(|changes|)] + (Records(changes) + rest)) == Some((changes, rest))
  {
    var t := [Int(|changes|)] + (Records(changes) + rest);
    assert ReadInt(t) == Some((|changes|, Records(changes) + rest));
    ReadRecordsOf(changes, rest);
  }

  lemma DecodeTargetOf(path: string, args: seq<string>, rest: seq<Token>)
    requires NUL !in path
    requires forall i :: 0 <= i < |args| ==> NUL !in args[i]
    ensures DecodeTarget(EncodeString(path) + ([Int(|args|)] + (EncodeArgs(args) + rest)))
         == Some((path, args, rest))
  {
    var tail := EncodeArgs(args) + rest;
    var afterPath := [Int(|args|)] + tail;
    DecodeStringOf(path, afterPath);
    assert ReadInt(afterPath) == Some((|args|, tail));
    DecodeArgsOf(args, rest);
  }
}
