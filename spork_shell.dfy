/** The source analyser and rewriter of the spork shell
    (spork/simple-spork-shell.c): command tokenising, exec detection,
    the fork+exec rewrite to posix_spawn, command-name derivation and the
    statistics record. Files are given as their lines, each with its
    newline, as fgets returns them. */
module SporkShell {
  import opened Wrappers
  import opened Seqs

  const MAX_ARGS: nat := 64

  // ------------------------------------------------------------ strstr

  /** `p` occurs in `s` at index `j`. */
  predicate MatchAt(s: string, p: string, j: int)
  {
    0 <= j && j + |p| <= |s| && s[j..j + |p|] == p
  }

  /** strstr: the index of the first occurrence of `p` in `s`, or -1. */
  function Find(s: string, p: string): (r: int)
    ensures -1 <= r <= |s|
    ensures r >= 0 ==> MatchAt(s, p, r) && forall j :: 0 <= j < r ==> !MatchAt(s, p, j)
    ensures r == -1 ==> forall j :: 0 <= j ==> !MatchAt(s, p, j)
    decreases |s|
  {
    if |s| < |p| then -1
    else if s[..|p|] == p then 0
    else
      var r := Find(s[1..], p);
      ShiftMatches(s, p);
      assert !MatchAt(s, p, 0) by { assert s[0..|p|] == s[..|p|]; }
      if r < 0 then -1 else r + 1
  }

  /** The matches in s[1..] are those in s moved one place left. */
  lemma ShiftMatches(s: string, p: string)
    requires s != []
    ensures forall j :: 1 <= j ==> (MatchAt(s[1..], p, j - 1) <==> MatchAt(s, p, j))
  {
    forall j | 1 <= j
      ensures MatchAt(s[1..], p, j - 1) <==> MatchAt(s, p, j)
    {
      if j + |p| <= |s| {
        assert s[1..][j - 1..j - 1 + |p|] == s[j..j + |p|];
      }
    }
  }

  predicate Contains(s: string, p: string)
  {
    Find(s, p) >= 0
  }

  /** A single differing character rules out a match. */
  lemma Mismatch(s: string, p: string, j: int, k: int)
    requires 0 <= j && 0 <= k < |p| && (j + |p| <= |s| ==> s[j + k] != p[k])
    ensures !MatchAt(s, p, j)
  {
    if j + |p| <= |s| {
      assert s[j..j + |p|][k] == s[j + k];
    }
  }

  /** Matches that end within the first n characters are matches of the
      n-character prefix, and the other way round. */
  lemma MatchAtPrefix(s: string, n: int, p: string, j: int)
    requires 0 <= j && j + |p| <= n <= |s|
    ensures MatchAt(s[..n], p, j) <==> MatchAt(s, p, j)
  {
    assert s[..n][j..j + |p|] == s[j..j + |p|];
  }

  /** strstr finds the same first occurrence in a prefix that contains it. */
  lemma FindInPrefix(s: string, n: int, p: string)
    requires 0 <= Find(s, p) && Find(s, p) + |p| <= n <= |s|
    ensures Find(s[..n], p) == Find(s, p)
  {
    var d := Find(s, p);
    MatchAtPrefix(s, n, p, d);
    var r := Find(s[..n], p);
    assert 0 <= r <= d;
    MatchAtPrefix(s, n, p, r);
  }

  /** Nothing in front of the first occurrence contains the pattern. */
  lemma NothingBeforeFirst(s: string, p: string)
    requires p != [] && 0 <= Find(s, p)
    ensures !Contains(s[..Find(s, p)], p)
  {
    var d := Find(s, p);
    var r := Find(s[..d], p);
    if r >= 0 {
      MatchAtPrefix(s, d, p, r);
    }
  }

  // ------------------------------------------------------- parse_command

  predicate IsDelim(c: char)
  {
    c == ' ' || c == '\t' || c == '\n'
  }

  /** The state of a left-to-right scan: the tokens finished so far and
      the token being read. */
  datatype Scan = Scan(done: seq<string>, current: string)

  function ScanChar(sc: Scan, c: char): Scan
  {
    if IsDelim(c) then
      (if sc.current == [] then sc else Scan(sc.done + [sc.current], []))
    else Scan(sc.done, sc.current + [c])
  }

  function ScanAll(s: string): Scan
  {
    if s == [] then Scan([], [])
    else ScanChar(ScanAll(s[..|s| - 1]), s[|s| - 1])
  }

  /** The maximal runs of non-delimiter characters, in order: strtok's
      tokens over the whole input. */
  function Tokens(s: string): seq<string>
  {
    var sc := ScanAll(s);
    if sc.current == [] then sc.done else sc.done + [sc.current]
  }

  predicate WellFormedToken(t: string)
  {
    t != [] && forall i :: 0 <= i < |t| ==> !IsDelim(t[i])
  }

  /** Every token is non-empty and holds no space, tab or newline. */
  lemma {:induction false} TokensWellFormed(s: string)
    ensures forall k :: 0 <= k < |Tokens(s)| ==> WellFormedToken(Tokens(s)[k])
  {
    ScanWellFormed(s);
  }

  lemma {:induction false} ScanWellFormed(s: string)
    ensures forall k :: 0 <= k < |ScanAll(s).done| ==> WellFormedToken(ScanAll(s).done[k])
    ensures forall i :: 0 <= i < |ScanAll(s).current| ==> !IsDelim(ScanAll(s).current[i])
    decreases |s|
  {
    if s != [] {
      ScanWellFormed(s[..|s| - 1]);
    }
  }

  predicate NoDelim(w: string)
  {
    forall i :: 0 <= i < |w| ==> !IsDelim(w[i])
  }

  /** Scanning a string with no delimiter in it finishes no token and
      leaves the whole string as the token being read. */
  lemma {:induction false} ScanOfWord(w: string)
    requires NoDelim(w)
    ensures ScanAll(w) == Scan([], w)
    decreases |w|
  {
    if w != [] {
      var init, c := w[..|w| - 1], w[|w| - 1];
      assert NoDelim(init) by {
        forall i | 0 <= i < |init|
          ensures !IsDelim(init[i])
        {
          assert init[i] == w[i];
        }
      }
      ScanOfWord(init);
      assert ScanAll(w) == ScanChar(Scan([], init), c);
      assert !IsDelim(c);
      assert init + [c] == w;
    }
  }

  /** The tokens of a string with no delimiter in it: the string itself,
      or nothing when it is empty. */
  lemma {:induction false} TokensOfWord(w: string)
    requires NoDelim(w)
    ensures Tokens(w) == if w == [] then [] else [w]
  {
    ScanOfWord(w);
  }

  /** The scan holds a token in progress exactly when the input ends with a
      character that is not a delimiter. */
  lemma ScanCurrentEmpty(s: string)
    ensures ScanAll(s).current == [] <==> (s == [] || IsDelim(s[|s| - 1]))
  {
  }

  /** Tokens grow one character at a time: a delimiter changes nothing; any
      other character starts a new token after a delimiter or at the start,
      and otherwise extends the last token. */
  lemma TokensSnoc(s: string, c: char)
    ensures IsDelim(c) ==> Tokens(s + [c]) == Tokens(s)
    ensures !IsDelim(c) && (s == [] || IsDelim(s[|s| - 1])) ==> Tokens(s + [c]) == Tokens(s) + [[c]]
    ensures !IsDelim(c) && s != [] && !IsDelim(s[|s| - 1]) ==>
      Tokens(s) != []
      && Tokens(s + [c]) == Tokens(s)[..|Tokens(s)| - 1] + [Tokens(s)[|Tokens(s)| - 1] + [c]]
  {
    assert (s + [c])[..|s|] == s;
    ScanCurrentEmpty(s);
    var sc := ScanAll(s);
    assert ScanAll(s + [c]) == ScanChar(sc, c);
    if sc.current != [] {
      assert Tokens(s)[..|Tokens(s)| - 1] == sc.done;
    } else {
      assert sc.current + [c] == [c];
    }
  }

  /** Scanning a delimiter-free stretch after a finished token only builds
      up the token in progress. */
  lemma {:induction false} ScanAppendWord(s: string, w: string)
    requires ScanAll(s).current == [] && NoDelim(w)
    ensures ScanAll(s + w) == Scan(ScanAll(s).done, w)
    decreases |w|
  {
    if w == [] {
      assert s + w == s;
    } else {
      var front, c := w[..|w| - 1], w[|w| - 1];
      assert NoDelim(front) by {
        forall i | 0 <= i < |front|
          ensures !IsDelim(front[i])
        {
          assert front[i] == w[i];
        }
      }
      ScanAppendWord(s, front);
      var sw := s + w;
      assert sw[..|sw| - 1] == s + front;
      assert sw[|sw| - 1] == c && !IsDelim(c);
      calc {
        ScanAll(sw);
        ScanChar(ScanAll(s + front), c);
        ScanChar(Scan(ScanAll(s).done, front), c);
        Scan(ScanAll(s).done, front + [c]);
        { assert front + [c] == w; }
        Scan(ScanAll(s).done, w);
      }
    }
  }

  /** A delimiter followed by a word adds exactly that word as the last
      token. */
  lemma TokensSnocWord(s: string, d: char, w: string)
    requires IsDelim(d) && w != [] && NoDelim(w)
    ensures Tokens(s + [d] + w) == Tokens(s) + [w]
  {
    assert (s + [d])[..|s|] == s;
    assert ScanAll(s + [d]) == ScanChar(ScanAll(s), d);
    ScanAppendWord(s + [d], w);
  }

  /** parse_command: stores the tokens (at most MAX_ARGS - 1 of them) at
      the front of `args`, a NULL after the last, and returns their count. */
  method ParseCommand(input: string, args: array<Option<string>>) returns (n: nat)
    requires args.Length == MAX_ARGS
    modifies args
    ensures n == if |Tokens(input)| < MAX_ARGS - 1 then |Tokens(input)| else MAX_ARGS - 1
    ensures forall k :: 0 <= k < n ==> args[k] == Some(Tokens(input)[k])
    ensures args[n] == None
    ensures forall k :: n < k < args.Length ==> args[k] == old(args[k])
  {
    var sc := Scan([], []);
    for i := 0 to |input|
      invariant sc == ScanAll(input[..i])
    {
      assert input[..i + 1][..i] == input[..i];
      sc := ScanChar(sc, input[i]);
    }
    assert input[..|input|] == input;
    var tokens := if sc.current == [] then sc.done else sc.done + [sc.current];
    n := 0;
    while n < |tokens| && n < MAX_ARGS - 1
      invariant n <= |tokens| && n <= MAX_ARGS - 1
      invariant forall k :: 0 <= k < n ==> args[k] == Some(tokens[k])
      invariant forall k :: n <= k < args.Length ==> args[k] == old(args[k])
    {
      args[n] := Some(tokens[n]);
      n := n + 1;
    }
    args[n] := None;
  }

  // -------------------------------------------- analyze_source_for_exec

  /** The four exec spellings the analyser looks for. */
  predicate HasExecCall(line: string)
  {
    Contains(line, "execl(") || Contains(line, "execv(") ||
    Contains(line, "execve(") || Contains(line, "execvp(")
  }

  /** execlp( is not one of them. */
  lemma ExeclpNotDetected()
    ensures !HasExecCall("execlp(")
  {
    var s := "execlp(";
    Mismatch(s, "execl(", 0, 5);
    Mismatch(s, "execl(", 1, 0);
    Mismatch(s, "execv(", 0, 4);
    Mismatch(s, "execv(", 1, 0);
    Mismatch(s, "execve(", 0, 4);
    Mismatch(s, "execvp(", 0, 4);
  }

  /** analyze_source_for_exec: 1 exactly when some line holds one of the
      four exec spellings; 0 for a file that cannot be opened. */
  method AnalyzeSourceForExec(file: Option<seq<string>>) returns (found: int)
    ensures found == 0 || found == 1
    ensures found == 1 <==> file.Some? && exists i :: 0 <= i < |file.value| && HasExecCall(file.value[i])
  {
    if file.None? {
      return 0;
    }
    var lines := file.value;
    found := 0;
    var i := 0;
    while i < |lines|
      invariant 0 <= i <= |lines|
      invariant found == 0
      invariant forall k :: 0 <= k < i ==> !HasExecCall(lines[k])
    {
      if HasExecCall(lines[i]) {
        found := 1;
        break;
      }
      i := i + 1;
    }
  }

  // --------------------------------------------- rewrite_to_posix_spawn

  const HEADER: seq<string> := ["#include <spawn.h>\n", "extern char **environ;\n\n"]
  const FORK_LINES: seq<string> := ["    // SPORK OPTIMIZED: fork() replaced with posix_spawn\n", "    pid_t pid;\n"]

  /** The rewriter's two variables: in_fork_section and brace_count. */
  datatype RState = RState(inFork: bool, braces: int)

  /** One character of the brace scan inside a fork section. */
  function BraceStep(st: RState, c: char): RState
  {
    if c == '{' then st.(braces := st.braces + 1)
    else if c == '}' then
      (if st.braces - 1 <= 0 then RState(false, st.braces - 1) else st.(braces := st.braces - 1))
    else st
  }

  function TrackBraces(st: RState, s: string): RState
    decreases |s|
  {
    if s == [] then st else TrackBraces(BraceStep(st, s[0]), s[1..])
  }

  function Count(s: string, c: char): nat
  {
    if s == [] then 0 else (if s[0] == c then 1 else 0) + Count(s[1..], c)
  }

  /** Over a line, brace_count moves by the number of '{' minus the number
      of '}', and a closed section stays closed. */
  lemma {:induction false} TrackBracesCount(st: RState, s: string)
    ensures TrackBraces(st, s).braces == st.braces + Count(s, '{') - Count(s, '}')
    ensures !st.inFork ==> !TrackBraces(st, s).inFork
    decreases |s|
  {
    if s != [] {
      TrackBracesCount(BraceStep(st, s[0]), s[1..]);
    }
  }

  /** brace_count after the scan has read s[..j + 1], starting from b. */
  function Running(b: int, s: string, j: nat): int
    requires j < |s|
    decreases j
  {
    var b' := b + (if s[0] == '{' then 1 else if s[0] == '}' then -1 else 0);
    if j == 0 then b' else Running(b', s[1..], j - 1)
  }

  /** Inside a section, the scan of a line closes it exactly when some '}'
      brings brace_count to 0 or below. */
  lemma {:induction false} TrackBracesCloses(st: RState, s: string)
    requires st.inFork
    ensures !TrackBraces(st, s).inFork <==>
      exists j :: 0 <= j < |s| && s[j] == '}' && Running(st.braces, s, j) <= 0
    decreases |s|
  {
    if s != [] {
      var st1 := BraceStep(st, s[0]);
      if st1.inFork {
        TrackBracesCloses(st1, s[1..]);
        if !TrackBraces(st1, s[1..]).inFork {
          var j :| 0 <= j < |s[1..]| && s[1..][j] == '}' && Running(st1.braces, s[1..], j) <= 0;
          assert s[j + 1] == '}' && Running(st.braces, s, j + 1) <= 0;
        } else {
          forall j | 0 <= j < |s| && s[j] == '}'
            ensures Running(st.braces, s, j) > 0
          {
            if j > 0 {
              assert s[1..][j - 1] == '}';
            }
          }
        }
      } else {
        TrackBracesCount(st1, s[1..]);
        assert s[0] == '}' && Running(st.braces, s, 0) <= 0;
      }
    }
  }

  /** The two lines emitted for an execl(/execv( call: an args array and a
      posix_spawn call, both quoting the first string literal after the
      call. No line when there is no complete literal. */
  function ExecLines(line: string): seq<string>
  {
    var l := Find(line, "execl(");
    var pos := if l >= 0 then l else Find(line, "execv(");
    if pos < 0 then []
    else
      var q1 := Find(line[pos..], "\"");
      if q1 < 0 then []
      else
        var after := line[pos + q1 + 1..];
        var q2 := Find(after, "\"");
        if q2 < 0 then []
        else
          var path := after[..q2];
          ["    char *args[] = {\"" + path + "\", NULL};\n",
           "    posix_spawn(&pid, \"" + path + "\", NULL, NULL, args, environ);\n"]
  }

  /** One line of the rewrite loop: the new state and what it writes. */
  function RewriteStep(st: RState, line: string): (RState, seq<string>)
  {
    if Contains(line, "#include") && Contains(line, "spawn.h") then (st, [])
    else if Contains(line, "fork()") then (st.(inFork := true), FORK_LINES)
    else if st.inFork && (Contains(line, "execl(") || Contains(line, "execv(")) then (st, ExecLines(line))
    else if st.inFork && (Contains(line, "_exit") || Contains(line, "perror")) then (st, [])
    else
      var st' := if st.inFork then TrackBraces(st, line) else st;
      (st', if !st'.inFork || st'.braces > 1 then [line] else [])
  }

  function RewriteAll(lines: seq<string>): (RState, seq<string>)
  {
    if lines == [] then (RState(false, 0), [])
    else
      var prev := RewriteAll(lines[..|lines| - 1]);
      var step := RewriteStep(prev.0, lines[|lines| - 1]);
      (step.0, prev.1 + step.1)
  }

  /** A line that is not a spawn.h include, a fork() line, an exec line or
      an _exit/perror line inside a section is copied verbatim exactly when
      after its brace scan the rewriter is outside a section or
      brace_count > 1; otherwise it is dropped. The proof only unfolds one
      RewriteStep. */
  lemma VerbatimCopy(st: RState, line: string)
    requires !(Contains(line, "#include") && Contains(line, "spawn.h"))
    requires !Contains(line, "fork()")
    requires !(st.inFork && (Contains(line, "execl(") || Contains(line, "execv(")))
    requires !(st.inFork && (Contains(line, "_exit") || Contains(line, "perror")))
    ensures var (st', out) := RewriteStep(st, line);
      (out == [line] <==> !st'.inFork || st'.braces > 1) && (out == [] || out == [line])
  {
  }

  /** Without any fork() line, the rewrite copies the source unchanged
      except for dropping spawn.h includes. */
  lemma {:induction false} RewriteWithoutFork(lines: seq<string>)
    requires forall i :: 0 <= i < |lines| ==> !Contains(lines[i], "fork()")
    ensures !RewriteAll(lines).0.inFork
    ensures RewriteAll(lines).1 == KeepNonSpawnIncludes(lines)
    decreases |lines|
  {
    if lines != [] {
      RewriteWithoutFork(lines[..|lines| - 1]);
    }
  }

  function KeepNonSpawnIncludes(lines: seq<string>): seq<string>
  {
    if lines == [] then []
    else
      var last := lines[|lines| - 1];
      KeepNonSpawnIncludes(lines[..|lines| - 1])
      + (if Contains(last, "#include") && Contains(last, "spawn.h") then [] else [last])
  }

  /** A fork() line opens a section and is replaced by the two fixed lines,
      keeping brace_count. The proof only unfolds one RewriteStep. */
  lemma ForkLineOpensSection(st: RState, line: string)
    requires !(Contains(line, "#include") && Contains(line, "spawn.h"))
    requires Contains(line, "fork()")
    ensures RewriteStep(st, line) == (RState(true, st.braces), FORK_LINES)
  {
  }

  /** rewrite_to_posix_spawn. `source` is the input file (None when it
      cannot be opened) and `outputOpens` whether the output file can be
      created. Returns 1 and the output's contents - the two header lines,
      then what each input line rewrites to, in order - or 0 when either
      open fails, in which case an output that did open is left empty. */
  method RewriteToPosixSpawn(source: Option<seq<string>>, outputOpens: bool)
    returns (ok: int, output: Option<seq<string>>)
    ensures ok == (if source.Some? && outputOpens then 1 else 0)
    ensures outputOpens <==> output.Some?
    ensures ok == 0 && outputOpens ==> output == Some([])
    ensures ok == 1 ==> output == Some(HEADER + RewriteAll(source.value).1)
  {
    if source.None? || !outputOpens {
      return 0, if outputOpens then Some([]) else None;
    }
    var lines := source.value;
    var out := HEADER;
    var st := RState(false, 0);
    assert lines[..0] == [];
    for i := 0 to |lines|
      invariant st == RewriteAll(lines[..i]).0 && out == HEADER + RewriteAll(lines[..i]).1
    {
      RewriteAllSnoc(lines, i);
      var emitted: seq<string>;
      st, emitted := RewriteLine(st, lines[i]);
      AppendAssoc(HEADER, RewriteAll(lines[..i]).1, emitted);
      out := out + emitted;
    }
    assert lines[..|lines|] == lines;
    return 1, Some(out);
  }

  /** One more line: the rewriter steps from where the shorter input left
      it, and the new line's output follows the earlier output. */
  lemma RewriteAllSnoc(lines: seq<string>, i: nat)
    requires i < |lines|
    ensures RewriteAll(lines[..i + 1])
         == (RewriteStep(RewriteAll(lines[..i]).0, lines[i]).0,
             RewriteAll(lines[..i]).1 + RewriteStep(RewriteAll(lines[..i]).0, lines[i]).1)
  {
    assert lines[..i + 1][..i] == lines[..i];
  }

  /** The body of the rewrite loop for one line, including the brace scan
      over its characters. */
  method RewriteLine(st: RState, line: string) returns (st': RState, emitted: seq<string>)
    ensures (st', emitted) == RewriteStep(st, line)
  {
    if Contains(line, "#include") && Contains(line, "spawn.h") {
      return st, [];
    }
    if Contains(line, "fork()") {
      return st.(inFork := true), FORK_LINES;
    }
    if st.inFork && (Contains(line, "execl(") || Contains(line, "execv(")) {
      return st, ExecLines(line);
    }
    if st.inFork && (Contains(line, "_exit") || Contains(line, "perror")) {
      return st, [];
    }
    st' := st;
    if st.inFork {
      for i := 0 to |line|
        invariant TrackBraces(st', line[i..]) == TrackBraces(st, line)
      {
        assert line[i..][1..] == line[i + 1..];
        st' := BraceStep(st', line[i]);
      }
      assert line[|line|..] == [];
    }
    emitted := if !st'.inFork || st'.braces > 1 then [line] else [];
  }

  // ------------------------------------------------------- command names

  /** `n` characters at most: what a buffer of n + 1 bytes holds. */
  function Truncate(s: string, n: nat): (r: string)
    ensures |r| <= n && |r| <= |s| && r == s[..|r|]
    ensures |s| <= n ==> r == s
  {
    if |s| <= n then s else s[..n]
  }

  /** The base name: the command copied into a 256-byte buffer (at most
      255 characters), cut at its first ".c". */
  function BaseName(arg: string): string
  {
    var b := Truncate(arg, 255);
    var d := Find(b, ".c");
    if d >= 0 then b[..d] else b
  }

  /** For a command whose first ".c" starts within the copied part, the
      base name is everything in front of it, and holds no ".c". */
  lemma BaseNameIsPrefix(arg: string)
    requires 0 <= Find(arg, ".c") && Find(arg, ".c") + 2 <= 255
    ensures BaseName(arg) == arg[..Find(arg, ".c")]
    ensures !Contains(BaseName(arg), ".c")
  {
    if |arg| > 255 {
      FindInPrefix(arg, 255, ".c");
      assert arg[..255][..Find(arg, ".c")] == arg[..Find(arg, ".c")];
    }
    NothingBeforeFirst(arg, ".c");
  }

  /** The executable run for a command: "./" and the base name, in a
      256-byte buffer. */
  function ExecutableName(arg: string): string
  {
    Truncate("./" + BaseName(arg), 255)
  }

  /** Where the rewritten source goes: /tmp/spork_opt_<base>.c, in a
      256-byte buffer. */
  function RewrittenSourceName(arg: string): string
  {
    Truncate("/tmp/spork_opt_" + BaseName(arg) + ".c", 255)
  }

  // ------------------------------------------------ builtins and stats

  /** is_builtin */
  predicate IsBuiltin(cmd: string)
  {
    cmd == "stats" || cmd == "reset" || cmd == "help" || cmd == "exit"
  }

  /** No builtin names a .c file, so a builtin never reaches the analyser. */
  lemma BuiltinsAreNotSources(cmd: string)
    requires IsBuiltin(cmd)
    ensures !Contains(cmd, ".c")
  {
    forall j | 0 <= j ensures !MatchAt(cmd, ".c", j) {
      if j + 2 <= |cmd| {
        assert cmd[j] != '.';
        Mismatch(cmd, ".c", j, 0);
      }
    }
  }

  /** ShellStats */
  datatype ShellStats = ShellStats(
    totalSpawns: int, forkCalls: int, posixSpawnCalls: int,
    totalTimeUs: int, optimizedCount: int, analyzedCount: int)

  const ZERO_STATS: ShellStats := ShellStats(0, 0, 0, 0, 0, 0)

  /** Where execute_command hands over to the compile step, or how it
      stopped before it. */
  datatype CommandOutcome =
    | NoCommand
    | NotASource
    | RewriteFailed(output: Option<seq<string>>)
    | Compile(source: string, executable: string, rewritten: Option<seq<string>>)

  /** What one line of input leads to. */
  datatype LineOutcome = Skipped | Builtin(name: string) | Ran(outcome: CommandOutcome)

  /** What execute_command does up to the compile step, for the command
      word `arg0`, taking the counters from `before` to `after`: `source`
      is the command's file (None when it cannot be opened; the analyser
      and the rewriter read the same contents) and `outputOpens` whether
      the rewritten file can be created. */
  predicate ExecuteSpec(before: ShellStats, after: ShellStats, arg0: Option<string>,
                        source: Option<seq<string>>, outputOpens: bool, outcome: CommandOutcome)
  {
    (arg0.None? ==> outcome == NoCommand && after == before)
    && (arg0.Some? && !Contains(arg0.value, ".c") ==> outcome == NotASource && after == before)
    && (arg0.Some? && Contains(arg0.value, ".c") ==>
      var hasExec := source.Some? && exists i :: 0 <= i < |source.value| && HasExecCall(source.value[i]);
      var rewriteOk := source.Some? && outputOpens;
      after == before.(
        analyzedCount := before.analyzedCount + 1,
        optimizedCount := before.optimizedCount + (if hasExec then 1 else 0),
        forkCalls := before.forkCalls + (if hasExec then 0 else 1),
        posixSpawnCalls := before.posixSpawnCalls + (if hasExec && rewriteOk then 1 else 0))
      && (hasExec && !rewriteOk ==> outcome.RewriteFailed?)
      && (hasExec && rewriteOk ==>
            outcome == Compile(RewrittenSourceName(arg0.value), ExecutableName(arg0.value),
                               Some(HEADER + RewriteAll(source.value).1)))
      && (!hasExec ==> outcome == Compile(arg0.value, ExecutableName(arg0.value), None)))
  }

  class Shell {
    var stats: ShellStats

    constructor ()
      ensures stats == ZERO_STATS
    {
      stats := ZERO_STATS;
    }

    /** cmd_reset: every counter back to zero. */
    method CmdReset()
      modifies this
      ensures stats == ZERO_STATS
    {
      stats := ZERO_STATS;
    }

    /** execute_command up to the compile step. */
    method ExecuteCommand(arg0: Option<string>, source: Option<seq<string>>, outputOpens: bool)
      returns (outcome: CommandOutcome)
      modifies this
      ensures ExecuteSpec(old(stats), stats, arg0, source, outputOpens, outcome)
    {
      if arg0.None? {
        return NoCommand;
      }
      var arg := arg0.value;
      if !Contains(arg, ".c") {
        return NotASource;
      }
      var executable := ExecutableName(arg);

      stats := stats.(analyzedCount := stats.analyzedCount + 1);
      var hasExec := AnalyzeSourceForExec(source);

      if hasExec == 1 {
        stats := stats.(optimizedCount := stats.optimizedCount + 1);
        var target := RewrittenSourceName(arg);
        var ok, output := RewriteToPosixSpawn(source, outputOpens);
        if ok == 0 {
          return RewriteFailed(output);
        }
        stats := stats.(posixSpawnCalls := stats.posixSpawnCalls + 1);
        return Compile(target, executable, output);
      } else {
        stats := stats.(forkCalls := stats.forkCalls + 1);
        return Compile(arg, executable, None);
      }
    }

    /** One pass of the shell loop for an input line: a line that is only a
        newline or has no token is skipped, a builtin runs (reset clears the
        counters, exit ends the shell, stats and help only print), and any
        other first token goes to execute_command. */
    method HandleLine(input: string, source: Option<seq<string>>, outputOpens: bool)
      returns (h: LineOutcome)
      modifies this
      ensures (|input| > 0 && input[0] == '\n') || Tokens(input) == [] ==> h == Skipped && stats == old(stats)
      ensures !(|input| > 0 && input[0] == '\n') && Tokens(input) != [] ==>
        var cmd := Tokens(input)[0];
        (IsBuiltin(cmd) ==> h == Builtin(cmd) && stats == (if cmd == "reset" then ZERO_STATS else old(stats)))
        && (!IsBuiltin(cmd) ==> h.Ran? && ExecuteSpec(old(stats), stats, Some(cmd), source, outputOpens, h.outcome))
    {
      if |input| > 0 && input[0] == '\n' {
        return Skipped;
      }
      var args := new Option<string>[MAX_ARGS](_ => None);
      var argc := ParseCommand(input, args);
      if argc == 0 {
        return Skipped;
      }
      var cmd := args[0].value;
      if IsBuiltin(cmd) {
        if cmd == "reset" {
          CmdReset();
        }
        return Builtin(cmd);
      }
      var o := ExecuteCommand(args[0], source, outputOpens);
      return Ran(o);
    }
  }
}
