/** The command runner of `common.py`: running a command under a timeout,
    the retry loop of `check_execute` with its sandbox prefix, the quoting
    of `shell_join`, and the decisions `git_clone`, `git_checkout` and
    `git_update` take over those primitives.

    Processes are not modelled. An `Executor` says what the command run at
    a given position of the session does; `Trace` records every command run
    so far, in order, with the timeout it ran under. */
module Command {
  import opened Wrappers
  import opened Text

  /** `DEFAULT_EXECUTE_TIMEOUT`: ten minutes, in seconds. */
  const DefaultExecuteTimeout: nat := 10 * 60

  /** The exit status `execute` reports when the alarm fires. */
  const TimeoutStatus: int := 124

  /** `platform.system()`, as far as the runner tells systems apart. */
  datatype Os = Darwin | Linux | OtherOs

  /** What one run of a command does: it exits with a status and an output,
      or the alarm fires before it finishes. */
  datatype Outcome = Exited(code: int, output: string) | TimedOut

  /** One command run, with the timeout it ran under. */
  datatype Run = Run(command: seq<string>, timeout: nat)

  type Trace = seq<Run>

  /** The world the runner sees: what the command at position `k` of the
      session does, the operating system, and the default timeout set by
      `set_default_execute_timeout`. */
  datatype Env = Env(exec: (nat, seq<string>) -> Outcome, os: Os, defaultTimeout: nat)

  /** Exceptions that leave the runner's functions. */
  datatype Raised =
    | ExecuteCommandFailure(command: seq<string>, returncode: int)
    | CalledProcessError(command: seq<string>, returncode: int)
    | Alarm(command: seq<string>)

  /** A value or an exception, and the session afterwards. */
  datatype Step<+T> = Step(result: Wrappers.Result<T, Raised>, trace: Trace)

  // ---------------------------------------------------------------------
  // Quoting

  /** `pipes.quote`'s safe characters: letters, digits and `@%_-+=:,./`. */
  predicate SafeChar(c: char) {
    ('a' <= c <= 'z') || ('A' <= c <= 'Z') || IsDigit(c) ||
    c == '@' || c == '%' || c == '_' || c == '-' || c == '+' || c == '=' ||
    c == ':' || c == ',' || c == '.' || c == '/'
  }

  predicate AllSafe(s: string) {
    s == [] || (SafeChar(s[0]) && AllSafe(s[1..]))
  }

  /** `s.replace("'", "'\"'\"'")`: each single quote closes the quoted
      text, is given inside double quotes, and quoting reopens. */
  function EscapeQuotes(s: string): (r: string)
    ensures '\'' !in s ==> r == s
  {
    if s == [] then []
    else (if s[0] == '\'' then "'\"'\"'" else [s[0]]) + EscapeQuotes(s[1..])
  }

  /** `pipes.quote(x)`: `''` for the empty string, the argument itself when
      every character is safe, and otherwise the argument in single quotes
      with its own single quotes escaped. */
  function Quote(x: string): (q: string)
    ensures q != []
  {
    if x == [] then "''"
    else if AllSafe(x) then x
    else "'" + EscapeQuotes(x) + "'"
  }

  /** `shell_join`: the quoted arguments separated by single spaces. */
  function ShellJoin(command: seq<string>): string {
    if command == [] then []
    else if |command| == 1 then Quote(command[0])
    else Quote(command[0]) + " " + ShellJoin(command[1..])
  }

  /** An argument with an unsafe character and no single quote is wrapped
      in single quotes as it is. */
  lemma QuoteWraps(x: string)
    requires !AllSafe(x) && '\'' !in x
    ensures Quote(x) == "'" + x + "'"
  {
  }

  /** A command of a safe word and an argument with an unsafe character
      and no single quote is joined with the argument single-quoted. */
  lemma ShellJoinQuotesSecond(w: string, x: string)
    requires w != [] && AllSafe(w)
    requires !AllSafe(x) && '\'' !in x
    ensures ShellJoin([w, x]) == w + " " + ("'" + x + "'")
  {
    assert ShellJoin([w, x]) == Quote(w) + " " + Quote(x) by {
      assert [w, x][1..] == [x];
    }
    assert Quote(w) == w;
    assert Quote(x) == "'" + x + "'" by { QuoteWraps(x); }
  }

  /** The doctest of `shell_join` maps `['echo', 'Hello, World!']` to
      `echo 'Hello, World!'`: with `ShellJoinQuotesSecond`, these are the
      facts it rests on. */
  lemma ShellJoinDoctestPremises()
    ensures "echo" != [] && AllSafe("echo")
    ensures !AllSafe("Hello, World!") && '\'' !in "Hello, World!"
  {
    var hello := "Hello, World!";
    assert hello[6] == ' ';
    UnsafeChar(hello, 6);
  }

  /** One unsafe character makes the whole argument unsafe. */
  lemma {:induction false} UnsafeChar(x: string, i: nat)
    requires i < |x| && !SafeChar(x[i])
    ensures !AllSafe(x)
    decreases i
  {
    if i > 0 {
      UnsafeChar(x[1..], i - 1);
    }
  }

  // A reader for the words `shell_join` produces, following the quoting
  // rules of section 2.2 of the Shell Command Language (IEEE Std 1003.1):
  // text between single quotes is literal, text between double quotes is
  // literal when it holds none of `$`, backquote and backslash, and words
  // are separated by unquoted blanks. Anything else is refused.

  /** Where the reader is: outside quotes, or inside single or double
      quotes. */
  datatype Mode = Plain | InSingle | InDouble

  /** What reading a word gives when a piece of text `pre`, taking `used`
      characters of the line, comes in front of the rest of the word. */
  function Extend(pre: string, used: nat, r: Option<(string, nat)>): Option<(string, nat)> {
    match r
    case None => None
    case Some((w, n)) => Some((pre + w, used + n))
  }

  /** Reads one word from the front of `s` in `mode`, up to an unquoted
      space or the end of `s`: the word's value and the number of
      characters it took. `None` when the text is not of the accepted
      form (an unclosed quote, an unsafe unquoted character). */
  function ReadWord(s: string, mode: Mode): (r: Option<(string, nat)>)
    ensures r.Some? ==> r.value.1 <= |s| && (r.value.1 == |s| || s[r.value.1] == ' ')
  {
    if s == [] then (if mode == Plain then Some(([], 0)) else None)
    else
      match mode
      case Plain =>
        if s[0] == ' ' then Some(([], 0))
        else if s[0] == '\'' then Extend([], 1, ReadWord(s[1..], InSingle))
        else if s[0] == '"' then Extend([], 1, ReadWord(s[1..], InDouble))
        else if SafeChar(s[0]) then Extend([s[0]], 1, ReadWord(s[1..], Plain))
        else None
      case InSingle =>
        if s[0] == '\'' then Extend([], 1, ReadWord(s[1..], Plain))
        else Extend([s[0]], 1, ReadWord(s[1..], InSingle))
      case InDouble =>
        if s[0] == '"' then Extend([], 1, ReadWord(s[1..], Plain))
        else if s[0] == '$' || s[0] == '`' || s[0] == '\\' then None
        else Extend([s[0]], 1, ReadWord(s[1..], InDouble))
  }

  /** Splits a command line of words separated by single spaces into the
      values of its words. */
  function ReadWords(s: string): Option<seq<string>>
    decreases |s|
  {
    if s == [] then Some([])
    else
      match ReadWord(s, Plain)
      case None => None
      case Some((w, n)) =>
        if n == 0 then None
        else if n == |s| then Some([w])
        else
          match ReadWords(s[n + 1..])
          case None => None
          case Some(ws) => Some([w] + ws)
  }

  lemma ExtendExtend(a: string, m: nat, b: string, n: nat, r: Option<(string, nat)>)
    ensures Extend(a, m, Extend(b, n, r)) == Extend(a + b, m + n, r)
  {
    if r.Some? {
      assert a + (b + r.value.0) == a + b + r.value.0;
    }
  }

  /** An unquoted run of safe characters is its own value. */
  lemma {:induction false} ReadSafe(x: string, rest: string)
    requires AllSafe(x)
    ensures ReadWord(x + rest, Plain) == Extend(x, |x|, ReadWord(rest, Plain))
    decreases |x|
  {
    if x == [] {
      assert x + rest == rest;
      assert Extend([], 0, ReadWord(rest, Plain)) == ReadWord(rest, Plain) by {
        if ReadWord(rest, Plain).Some? { assert [] + ReadWord(rest, Plain).value.0 == ReadWord(rest, Plain).value.0; }
      }
    } else {
      assert (x + rest)[0] == x[0];
      assert (x + rest)[1..] == x[1..] + rest;
      ReadSafe(x[1..], rest);
      ExtendExtend([x[0]], 1, x[1..], |x| - 1, ReadWord(rest, Plain));
      assert [x[0]] + x[1..] == x;
    }
  }

  lemma OpenSingle(s: string)
    ensures ReadWord("'" + s, Plain) == Extend([], 1, ReadWord(s, InSingle))
  {
    assert ("'" + s)[1..] == s;
  }

  lemma CloseSingle(s: string)
    ensures ReadWord("'" + s, InSingle) == Extend([], 1, ReadWord(s, Plain))
  {
    assert ("'" + s)[1..] == s;
  }

  lemma OpenDouble(s: string)
    ensures ReadWord("\"" + s, Plain) == Extend([], 1, ReadWord(s, InDouble))
  {
    assert ("\"" + s)[1..] == s;
  }

  lemma CloseDouble(s: string)
    ensures ReadWord("\"" + s, InDouble) == Extend([], 1, ReadWord(s, Plain))
  {
    assert ("\"" + s)[1..] == s;
  }

  lemma QuoteInDouble(s: string)
    ensures ReadWord("'" + s, InDouble) == Extend("'", 1, ReadWord(s, InDouble))
  {
    assert ("'" + s)[1..] == s;
  }

  /** The escape of a single quote inside single quotes (close the quote,
      a double-quoted quote, reopen) reads as one quote. */
  lemma ReadQuoteEscape(tail: string)
    ensures ReadWord("'\"'\"'" + tail, InSingle) == Extend("'", 5, ReadWord(tail, InSingle))
  {
    var s4 := "'" + tail;
    var s3 := "\"" + s4;
    var s2 := "'" + s3;
    var s1 := "\"" + s2;
    var s0 := "'" + s1;
    assert "'\"'\"'" + tail == s0;
    CloseSingle(s1);
    OpenDouble(s2);
    QuoteInDouble(s3);
    CloseDouble(s4);
    OpenSingle(tail);
    QuoteEscapeExtends(ReadWord(tail, InSingle));
  }

  /** The five characters of the escape add one quote to the value. */
  lemma QuoteEscapeExtends(r: Option<(string, nat)>)
    ensures Extend([], 1, Extend([], 1, Extend("'", 1, Extend([], 1, Extend([], 1, r))))) == Extend("'", 5, r)
  {
    if r.Some? {
      var w := r.value.0;
      assert [] + ([] + ("'" + ([] + ([] + w)))) == "'" + w;
    }
  }

  /** Inside single quotes, the escaped text reads back as the original up
      to the closing quote. */
  lemma Regroup(a: string, b: string, c: string, d: string)
    ensures a + b + c + d == a + (b + c + d)
  {
  }

  lemma {:induction false} ReadEscapedBody(x: string, rest: string)
    ensures ReadWord(EscapeQuotes(x) + "'" + rest, InSingle) ==
      Extend(x, |EscapeQuotes(x)| + 1, ReadWord(rest, Plain))
    decreases |x|
  {
    if x == [] {
      assert EscapeQuotes(x) + "'" + rest == "'" + rest;
      CloseSingle(rest);
    } else {
      var e := EscapeQuotes(x[1..]);
      var n := |e| + 1;
      var tail := e + "'" + rest;
      var r := ReadWord(rest, Plain);
      assert ReadWord(tail, InSingle) == Extend(x[1..], n, r) by { ReadEscapedBody(x[1..], rest); }
      var head := if x[0] == '\'' then "'\"'\"'" else [x[0]];
      assert EscapeQuotes(x) == head + e;
      assert EscapeQuotes(x) + "'" + rest == head + tail by { Regroup(head, e, "'", rest); }
      if x[0] == '\'' {
        assert ReadWord(head + tail, InSingle) == Extend("'", 5, Extend(x[1..], n, r)) by {
          ReadQuoteEscape(tail);
        }
        ExtendExtend("'", 5, x[1..], n, r);
        assert "'" + x[1..] == x;
      } else {
        assert (head + tail)[1..] == tail;
        ExtendExtend([x[0]], 1, x[1..], n, r);
        assert [x[0]] + x[1..] == x;
      }
    }
  }

  /** A separator or the end of the line ends the word. */
  lemma ReadNothing(t: string)
    requires t == [] || t[0] == ' '
    ensures ReadWord(t, Plain) == Some(([], 0))
  {
  }

  /** `''` reads as the empty word. */
  lemma ReadEmptyQuotes(t: string)
    requires t == [] || t[0] == ' '
    ensures ReadWord("''" + t, Plain) == Some(([], 2))
  {
    var s1 := "'" + t;
    var s0 := "'" + s1;
    assert "''" + t == s0;
    assert ReadWord(s1, InSingle) == Some(([], 1)) by {
      ReadNothing(t);
      CloseSingle(t);
      assert "" + "" == "";
    }
    assert ReadWord(s0, Plain) == Some(([], 2)) by {
      OpenSingle(s1);
      assert "" + "" == "";
    }
  }

  /** A single-quoted argument with its quotes escaped reads back as the
      argument. */
  lemma ReadSingleQuoted(x: string, t: string)
    ensures ReadWord("'" + EscapeQuotes(x) + "'" + t, Plain) ==
      Extend(x, |EscapeQuotes(x)| + 2, ReadWord(t, Plain))
  {
    var e := EscapeQuotes(x);
    var u := e + "'" + t;
    var r := ReadWord(t, Plain);
    assert "'" + e + "'" + t == "'" + u by { Regroup("'", e, "'", t); }
    assert ReadWord("'" + u, Plain) == Extend([], 1, ReadWord(u, InSingle)) by { OpenSingle(u); }
    assert ReadWord(u, InSingle) == Extend(x, |e| + 1, r) by { ReadEscapedBody(x, t); }
    assert Extend([], 1, Extend(x, |e| + 1, r)) == Extend(x, |e| + 2, r) by {
      ExtendExtend([], 1, x, |e| + 1, r);
      assert [] + x == x;
    }
  }

  lemma ReadSafeWord(x: string, t: string)
    requires t == [] || t[0] == ' '
    requires x != [] && AllSafe(x)
    ensures ReadWord(Quote(x) + t, Plain) == Some((x, |Quote(x)|))
  {
    assert Quote(x) == x;
    ReadNothing(t);
    ReadSafe(x, t);
    assert x + [] == x;
  }

  lemma ReadQuotedWord(x: string, t: string)
    requires t == [] || t[0] == ' '
    requires x != [] && !AllSafe(x)
    ensures ReadWord(Quote(x) + t, Plain) == Some((x, |Quote(x)|))
  {
    assert Quote(x) == "'" + EscapeQuotes(x) + "'";
    ReadNothing(t);
    ReadSingleQuoted(x, t);
    assert x + [] == x;
  }

  /** Quoting round trip for one argument, followed by a separator or the
      end of the line. */
  lemma QuoteReadsBack(x: string, t: string)
    requires t == [] || t[0] == ' '
    ensures ReadWord(Quote(x) + t, Plain) == Some((x, |Quote(x)|))
  {
    if x == [] {
      assert Quote(x) == "''";
      ReadEmptyQuotes(t);
    } else if AllSafe(x) {
      ReadSafeWord(x, t);
    } else {
      ReadQuotedWord(x, t);
    }
  }

  /** `shell_join` is read back by the shell as exactly the arguments it
      was given: quoting loses nothing and adds nothing. */
  lemma {:induction false} ShellJoinRoundTrip(command: seq<string>)
    ensures ReadWords(ShellJoin(command)) == Some(command)
  {
    if command == [] {
    } else if |command| == 1 {
      QuoteReadsBack(command[0], []);
      assert Quote(command[0]) + [] == Quote(command[0]);
      assert command == [command[0]];
    } else {
      var q := Quote(command[0]);
      var rest := ShellJoin(command[1..]);
      var s := q + " " + rest;
      QuoteReadsBack(command[0], " " + rest);
      assert s == q + (" " + rest);
      assert s[|q| + 1..] == rest;
      ShellJoinRoundTrip(command[1..]);
      assert [command[0]] + command[1..] == command;
    }
  }

  /** Different commands are never logged as the same line. */
  lemma ShellJoinInjective(a: seq<string>, b: seq<string>)
    requires ShellJoin(a) == ShellJoin(b)
    ensures a == b
  {
    ShellJoinRoundTrip(a);
    ShellJoinRoundTrip(b);
  }

  /** `'%d' % i` for any integer. */
  function IntText(i: int): string {
    if i < 0 then "-" + Decimal(-i) else Decimal(i)
  }

  /** `str(ExecuteCommandFailure(command, returncode))`. */
  function FailureText(command: seq<string>, returncode: int): string {
    "ExecuteCommandFailure(command=\"" + ShellJoin(command) + "\", returncode=" + IntText(returncode) + ")"
  }

  /** The line `shell_debug_print` writes before a command runs. */
  function Echo(command: seq<string>): string {
    "$ " + ShellJoin(command)
  }

  // ---------------------------------------------------------------------
  // Running commands

  /** The timeout a command runs under: the default when none is given. */
  function EffectiveTimeout(env: Env, timeout: Option<nat>): nat {
    if timeout.None? then env.defaultTimeout else timeout.value
  }

  /** The status `execute` returns for what the command did. */
  function Status(o: Outcome): (code: int)
    ensures o.TimedOut? ==> code == TimeoutStatus
    ensures o.Exited? ==> code == o.code
  {
    if o.TimedOut? then TimeoutStatus else o.code
  }

  /** The status of the command run at position `k` of the session. */
  function StatusAt(env: Env, k: nat, command: seq<string>): int {
    Status(env.exec(k, command))
  }

  /** `execute`: runs the command once, under the default timeout when none
      is given, and reports 124 when the alarm fires. */
  function Execute(env: Env, trace: Trace, command: seq<string>, timeout: Option<nat>): (r: (int, Trace))
    ensures r.1 == trace + [Run(command, EffectiveTimeout(env, timeout))]
    ensures env.exec(|trace|, command).TimedOut? ==> r.0 == TimeoutStatus
    ensures env.exec(|trace|, command).Exited? ==> r.0 == env.exec(|trace|, command).code
  {
    (StatusAt(env, |trace|, command), trace + [Run(command, EffectiveTimeout(env, timeout))])
  }

  /** `check_execute_output`: runs the command once; a non-zero status
      raises CalledProcessError and the alarm propagates. */
  function CheckExecuteOutput(env: Env, trace: Trace, command: seq<string>): (s: Step<string>)
    ensures s.trace == trace + [Run(command, env.defaultTimeout)]
    ensures s.result.Ok? ==> env.exec(|trace|, command) == Exited(0, s.result.value)
    ensures env.exec(|trace|, command).Exited? && env.exec(|trace|, command).code == 0 ==>
      s.result == Ok(env.exec(|trace|, command).output)
    ensures env.exec(|trace|, command).TimedOut? ==> s.result == Err(Alarm(command))
  {
    var t := trace + [Run(command, env.defaultTimeout)];
    match env.exec(|trace|, command)
    case TimedOut => Step(Err(Alarm(command)), t)
    case Exited(code, out) =>
      if code == 0 then Step(Ok(out), t) else Step(Err(CalledProcessError(command, code)), t)
  }

  /** The command `check_execute` runs: prefixed by `sandbox-exec` on
      Darwin or `firejail` on Linux when a non-empty profile is given. */
  function SandboxCommand(command: seq<string>, profile: Option<string>, os: Os): (c: seq<string>)
    ensures |command| <= |c| && c[|c| - |command|..] == command
    ensures |c| == |command| <==> profile.None? || profile.value == [] || os == OtherOs
    ensures profile.Some? && profile.value != [] && os == Darwin ==>
      c == ["sandbox-exec", "-f", profile.value] + command
    ensures profile.Some? && profile.value != [] && os == Linux ==>
      c == ["firejail", "--quiet", "--profile=" + profile.value, "--private=.", "--overlay-tmpfs", "--dns=8.8.8.8"] + command
  {
    if profile.None? || profile.value == [] then command
    else
      match os
      case Darwin => ["sandbox-exec", "-f", profile.value] + command
      case Linux =>
        ["firejail", "--quiet", "--profile=" + profile.value, "--private=.", "--overlay-tmpfs", "--dns=8.8.8.8"] + command
      case OtherOs => command
  }

  /** The attempts of the retry loop: `left` more runs of `command`, the
      last status seen being `last`. */
  function Attempts(env: Env, trace: Trace, command: seq<string>, timeout: nat, left: nat, last: int): Step<int>
    decreases left
  {
    if left == 0 then Step(Err(ExecuteCommandFailure(command, last)), trace)
    else
      var (code, t) := Execute(env, trace, command, Some(timeout));
      if code == 0 then Step(Ok(0), t)
      else Attempts(env, t, command, timeout, left - 1, code)
  }

  /** `range(max_retries)` has no elements for a negative count. */
  function Retries(maxRetries: int): nat {
    if maxRetries < 0 then 0 else maxRetries
  }

  /** What `check_execute` does, as a function. */
  function CheckExecuteSpec(env: Env, trace: Trace, command: seq<string>, timeout: Option<nat>,
                            profile: Option<string>, maxRetries: int): Step<int>
  {
    Attempts(env, trace, SandboxCommand(command, profile, env.os),
             EffectiveTimeout(env, timeout), Retries(maxRetries), -1)
  }

  /** `check_execute`: the retry loop. */
  method CheckExecute(env: Env, trace: Trace, command: seq<string>, timeout: Option<nat>,
                      profile: Option<string>, maxRetries: int)
    returns (r: Wrappers.Result<int, Raised>, trace': Trace)
    ensures Step(r, trace') == CheckExecuteSpec(env, trace, command, timeout, profile, maxRetries)
  {
    var t := EffectiveTimeout(env, timeout);
    var cmd := SandboxCommand(command, profile, env.os);
    var returncode := -1;
    trace' := trace;
    var retry := 0;
    while retry < maxRetries
      invariant 0 <= retry <= Retries(maxRetries)
      invariant Attempts(env, trace, cmd, t, Retries(maxRetries), -1) ==
                Attempts(env, trace', cmd, t, Retries(maxRetries) - retry, returncode)
    {
      var run := Execute(env, trace', cmd, Some(t));
      returncode, trace' := run.0, run.1;
      if returncode == 0 {
        return Ok(returncode), trace';
      }
      retry := retry + 1;
    }
    r := Err(ExecuteCommandFailure(cmd, returncode));
  }

  /** The retry loop stops at the first attempt whose status is 0 and
      reports success; when none of its attempts succeeds it runs exactly
      `left` times and raises with the last status (or the initial one when
      it never ran). Every attempt runs the same command. */
  lemma {:induction false} AttemptsSpec(env: Env, trace: Trace, command: seq<string>, timeout: nat, left: nat, last: int)
    ensures var s := Attempts(env, trace, command, timeout, left, last);
      var b := |trace|;
      (s.result.Ok? <==> exists k :: b <= k < b + left && StatusAt(env, k, command) == 0) &&
      (s.result.Ok? ==> (s.result.value == 0 && b < |s.trace| &&
        StatusAt(env, |s.trace| - 1, command) == 0 &&
        forall k :: b <= k < |s.trace| - 1 ==> StatusAt(env, k, command) != 0)) &&
      (s.result.Err? ==> (|s.trace| == b + left &&
        s.result.error == ExecuteCommandFailure(command,
          if left == 0 then last else StatusAt(env, b + left - 1, command)))) &&
      b <= |s.trace| <= b + left && s.trace[..b] == trace &&
      forall k :: b <= k < |s.trace| ==> s.trace[k] == Run(command, timeout)
    decreases left
  {
    var b := |trace|;
    if left > 0 {
      var (code, t) := Execute(env, trace, command, Some(timeout));
      assert code == StatusAt(env, b, command);
      if code != 0 {
        AttemptsSpec(env, t, command, timeout, left - 1, code);
        var s := Attempts(env, t, command, timeout, left - 1, code);
        assert s == Attempts(env, trace, command, timeout, left, last);
        assert s.trace[..b] == t[..b];
        if exists k :: b <= k < b + left && StatusAt(env, k, command) == 0 {
          var k :| b <= k < b + left && StatusAt(env, k, command) == 0;
          assert b + 1 <= k;
        }
      } else {
        assert StatusAt(env, b, command) == 0;
      }
    }
  }

  /** `check_execute` runs the sandboxed command at most `max_retries`
      times, each time under the same timeout; it returns 0 at the first
      attempt whose status is 0, and otherwise raises ExecuteCommandFailure
      with the sandboxed command and the last status, or -1 when it made no
      attempt. */
  lemma CheckExecuteContract(env: Env, trace: Trace, command: seq<string>, timeout: Option<nat>,
                             profile: Option<string>, maxRetries: int)
    ensures var s := CheckExecuteSpec(env, trace, command, timeout, profile, maxRetries);
      var cmd := SandboxCommand(command, profile, env.os);
      var n := Retries(maxRetries);
      var b := |trace|;
      (s.result.Ok? <==> s.result == Ok(0)) &&
      (s.result.Ok? <==> exists k :: b <= k < b + n && StatusAt(env, k, cmd) == 0) &&
      (s.result.Ok? ==> forall k :: b <= k < |s.trace| - 1 ==> StatusAt(env, k, cmd) != 0) &&
      b <= |s.trace| <= b + n && s.trace[..b] == trace &&
      (forall k :: b <= k < |s.trace| ==> s.trace[k] == Run(cmd, EffectiveTimeout(env, timeout))) &&
      (s.result.Err? ==> (|s.trace| == b + n &&
        s.result.error == ExecuteCommandFailure(cmd, if n == 0 then -1 else StatusAt(env, b + n - 1, cmd))))
  {
    AttemptsSpec(env, trace, SandboxCommand(command, profile, env.os), EffectiveTimeout(env, timeout), Retries(maxRetries), -1);
  }

  /** With three retries, two failing attempts and a successful third one
      give success after exactly three runs. */
  lemma RetryScenario(env: Env, command: seq<string>)
    requires StatusAt(env, 0, command) == 1 && StatusAt(env, 1, command) == 1
    requires StatusAt(env, 2, command) == 0
    ensures CheckExecuteSpec(env, [], command, None, None, 3) ==
      Step(Ok(0), [Run(command, env.defaultTimeout), Run(command, env.defaultTimeout), Run(command, env.defaultTimeout)])
  {
  }

  // ---------------------------------------------------------------------
  // Git

  /** `check_execute(command)` with the default timeout, no sandbox and
      one attempt, as the git helpers call it. */
  function Check(env: Env, trace: Trace, command: seq<string>): Step<int> {
    CheckExecuteSpec(env, trace, command, None, None, 1)
  }

  /** One attempt: the command runs once under the default timeout; status
      0 is returned, anything else raises ExecuteCommandFailure. */
  lemma CheckOnce(env: Env, trace: Trace, command: seq<string>)
    ensures Check(env, trace, command) ==
      if StatusAt(env, |trace|, command) == 0 then Step(Ok(0), trace + [Run(command, env.defaultTimeout)])
      else Step(Err(ExecuteCommandFailure(command, StatusAt(env, |trace|, command))),
                trace + [Run(command, env.defaultTimeout)])
  {
  }

  lemma CheckPasses(env: Env, trace: Trace, command: seq<string>)
    requires StatusAt(env, |trace|, command) == 0
    ensures Check(env, trace, command) == Step(Ok(0), trace + [Run(command, env.defaultTimeout)])
  {
    CheckOnce(env, trace, command);
  }

  lemma CheckRaises(env: Env, trace: Trace, command: seq<string>)
    requires StatusAt(env, |trace|, command) != 0
    ensures Check(env, trace, command) ==
      Step(Err(ExecuteCommandFailure(command, StatusAt(env, |trace|, command))), trace + [Run(command, env.defaultTimeout)])
  {
    CheckOnce(env, trace, command);
  }

  /** The runs of `commands`, one each, under the timeout `timeout`. */
  function RunsOf(commands: seq<seq<string>>, timeout: nat): (t: Trace)
    ensures |t| == |commands|
    ensures forall i :: 0 <= i < |t| ==> t[i] == Run(commands[i], timeout)
  {
    seq(|commands|, i requires 0 <= i < |commands| => Run(commands[i], timeout))
  }

  lemma RunsOfFirst(commands: seq<seq<string>>, timeout: nat)
    requires commands != []
    ensures RunsOf(commands, timeout) == [Run(commands[0], timeout)] + RunsOf(commands[1..], timeout)
  {
  }

  /** `check_execute` on each command in turn, collecting the statuses in
      a list; the first exception ends the sequence and propagates. */
  function RunAll(env: Env, trace: Trace, commands: seq<seq<string>>): Step<seq<int>>
    decreases |commands|
  {
    if commands == [] then Step(Ok([]), trace)
    else
      var s := Check(env, trace, commands[0]);
      if s.result.Err? then Step(Err(s.result.error), s.trace)
      else
        var rest := RunAll(env, s.trace, commands[1..]);
        if rest.result.Err? then rest
        else Step(Ok([s.result.value] + rest.result.value), rest.trace)
  }

  /** Every status `RunAll` collects is 0: `check_execute` returns 0 or
      raises. */
  lemma {:induction false} RunAllCollectsZeros(env: Env, trace: Trace, commands: seq<seq<string>>)
    ensures RunAll(env, trace, commands).result.Ok? ==>
      |RunAll(env, trace, commands).result.value| == |commands| &&
      forall i :: 0 <= i < |commands| ==> RunAll(env, trace, commands).result.value[i] == 0
    decreases |commands|
  {
    if commands != [] {
      CheckOnce(env, trace, commands[0]);
      RunAllCollectsZeros(env, Check(env, trace, commands[0]).trace, commands[1..]);
    }
  }

  /** An executor under which every command of `commands` succeeds and
      prints `out`, whenever it runs. */
  ghost predicate SucceedOn(env: Env, commands: seq<seq<string>>, out: string) {
    forall k, c :: c in commands ==> env.exec(k, c) == Exited(0, out)
  }

  lemma RunsOfAppend(a: seq<seq<string>>, b: seq<seq<string>>, timeout: nat)
    ensures RunsOf(a + b, timeout) == RunsOf(a, timeout) + RunsOf(b, timeout)
  {
  }

  lemma RunsAround(trace: Trace, a: seq<seq<string>>, c: seq<string>, b: seq<seq<string>>, timeout: nat)
    ensures trace + RunsOf(a, timeout) + [Run(c, timeout)] + RunsOf(b, timeout) == trace + RunsOf(a + [c] + b, timeout)
  {
    RunsOfAppend(a + [c], b, timeout);
    RunsOfAppend(a, [c], timeout);
    assert RunsOf([c], timeout) == [Run(c, timeout)];
  }

  /** When each of its commands succeeds, `RunAll` runs each command once,
      in order, and collects only zeros. */
  lemma {:induction false} RunAllSucceeds(env: Env, trace: Trace, commands: seq<seq<string>>, out: string)
    requires SucceedOn(env, commands, out)
    ensures RunAll(env, trace, commands).result.Ok?
    ensures RunAll(env, trace, commands).trace == trace + RunsOf(commands, env.defaultTimeout)
    decreases |commands|
  {
    if commands == [] {
      assert trace + [] == trace;
    } else {
      var d := env.defaultTimeout;
      var t := trace + [Run(commands[0], d)];
      assert Check(env, trace, commands[0]) == Step(Ok(0), t) by {
        assert env.exec(|trace|, commands[0]) == Exited(0, out);
        CheckPasses(env, trace, commands[0]);
      }
      assert SucceedOn(env, commands[1..], out) by {
        forall k, c | c in commands[1..] ensures env.exec(k, c) == Exited(0, out) {
          assert c in commands;
        }
      }
      RunAllSucceeds(env, t, commands[1..], out);
      RunsOfFirst(commands, d);
      assert t + RunsOf(commands[1..], d) == trace + ([Run(commands[0], d)] + RunsOf(commands[1..], d));
    }
  }

  /** `list.insert(i, x)` for an index within the list. */
  function InsertAt(s: seq<string>, i: nat, x: string): (r: seq<string>)
    requires i <= |s|
    ensures |r| == |s| + 1 && r[i] == x && r[..i] == s[..i] && r[i + 1..] == s[i..]
  {
    s[..i] + [x] + s[i..]
  }

  /** The command `git_checkout` runs. */
  function CheckoutCommand(tree: string, path: string, force: bool): seq<string> {
    var command := ["git", "-C", path, "checkout", tree];
    if force then InsertAt(command, 4, "-f") else command
  }

  /** With `force`, `-f` comes immediately before the tree, after the
      subcommand. */
  lemma CheckoutForcePlacement(tree: string, path: string)
    ensures CheckoutCommand(tree, path, true) == ["git", "-C", path, "checkout", "-f", tree]
  {
    var c := CheckoutCommand(tree, path, true);
    assert c[..4] == ["git", "-C", path, "checkout"];
    assert c[5..] == [tree];
  }

  function SubmoduleCommand(path: string): seq<string> {
    ["git", "-C", path, "submodule", "update", "--init", "--recursive"]
  }

  function CloneCommand(url: string, path: string): seq<string> {
    ["git", "clone", url, path]
  }

  function FetchCommand(path: string): seq<string> {
    ["git", "-C", path, "fetch"]
  }

  function ShaCommand(path: string): seq<string> {
    ["git", "-C", path, "rev-parse", "HEAD"]
  }

  /** The commands `git_clean` runs: on Darwin the immutable flags are
      cleared first. */
  function CleanCommands(os: Os, path: string): seq<seq<string>> {
    (if os == Darwin then [["chflags", "-R", "nouchg", path]] else []) + [["git", "-C", path, "clean", "-ffdx"]]
  }

  /** `git_sha`: the output of `rev-parse HEAD`, stripped. */
  function GitSha(env: Env, trace: Trace, path: string): Step<string> {
    var s := CheckExecuteOutput(env, trace, ShaCommand(path));
    if s.result.Ok? then Step(Ok(Strip(s.result.value)), s.trace) else s
  }

  /** `0 if all(rc == 0 for rc in returncodes) else 1`. */
  function AllZero(codes: seq<int>): (r: int)
    ensures r == 0 <==> forall i :: 0 <= i < |codes| ==> codes[i] == 0
    ensures r == 0 || r == 1
  {
    if codes == [] then 0
    else if codes[0] != 0 then 1
    else AllZero(codes[1..])
  }

  /** The commands `git_clone` runs: clone, then a forced checkout of
      `tree` when one is given, then a submodule update when `recursive`. */
  function CloneCommands(url: string, path: string, tree: Option<string>, recursive: bool): seq<seq<string>> {
    [CloneCommand(url, path)] +
    (if tree.Some? && tree.value != [] then [CheckoutCommand(tree.value, path, true)] else []) +
    (if recursive then [SubmoduleCommand(path)] else [])
  }

  /** `git_clone`. */
  function GitClone(env: Env, trace: Trace, url: string, path: string, tree: Option<string>, recursive: bool): Step<int> {
    var s := RunAll(env, trace, CloneCommands(url, path, tree, recursive));
    if s.result.Ok? then Step(Ok(AllZero(s.result.value)), s.trace) else Step(Err(s.result.error), s.trace)
  }

  /** `git_clone` never returns 1: every status it collects comes from
      `check_execute`, which returns 0 or raises. */
  lemma GitCloneNeverReportsFailure(env: Env, trace: Trace, url: string, path: string, tree: Option<string>, recursive: bool)
    ensures GitClone(env, trace, url, path, tree, recursive).result.Ok? ==>
      GitClone(env, trace, url, path, tree, recursive).result.value == 0
  {
    RunAllCollectsZeros(env, trace, CloneCommands(url, path, tree, recursive));
  }

  /** The commands `git_update` runs once it knows the current head. */
  function UpdateCommands(sha: string, path: string, head: string): seq<seq<string>> {
    if head != sha then [FetchCommand(path), CheckoutCommand(sha, path, true), SubmoduleCommand(path)]
    else [CheckoutCommand(sha, path, true)]
  }

  /** The body of the `try` in `git_update`: the statuses collected, or the
      exception that ends it. */
  function UpdateAttempt(env: Env, trace: Trace, sha: string, path: string, incremental: bool): Step<seq<int>> {
    TryUpdate(env, trace, CleanPlan(env.os, path, incremental), sha, path)
  }

  /** The same body once the cleaning commands are chosen. */
  function TryUpdate(env: Env, trace: Trace, clean: seq<seq<string>>, sha: string, path: string): Step<seq<int>> {
    var s0 := RunAll(env, trace, clean);
    if s0.result.Err? then s0 else ShaThenUpdate(env, s0.trace, sha, path)
  }

  /** The rest of that body: `git_sha`, then the commands for the head it
      printed. */
  function ShaThenUpdate(env: Env, trace: Trace, sha: string, path: string): Step<seq<int>> {
    var current := GitSha(env, trace, path);
    if current.result.Err? then Step(Err(current.result.error), current.trace)
    else RunAll(env, current.trace, UpdateCommands(sha, path, current.result.value))
  }

  /** `git_update`: brings the working copy at `path` to `sha`. An
      ExecuteCommandFailure anywhere in the update removes the directory
      and clones afresh at `sha`; other exceptions propagate. */
  function GitUpdate(env: Env, trace: Trace, url: string, sha: string, path: string, incremental: bool): Step<int> {
    var a := UpdateAttempt(env, trace, sha, path, incremental);
    if a.result.Ok? then Step(Ok(AllZero(a.result.value)), a.trace)
    else if a.result.error.ExecuteCommandFailure? then
      var rm := Check(env, a.trace, ["rm", "-rf", path]);
      if rm.result.Err? then rm
      else GitClone(env, rm.trace, url, path, Some(sha), true)
    else Step(Err(a.result.error), a.trace)
  }

  /** The cleaning run before the update: none for an incremental build. */
  function CleanPlan(os: Os, path: string, incremental: bool): seq<seq<string>> {
    if incremental then [] else CleanCommands(os, path)
  }

  /** The commands `git_update` runs when none of them fails. */
  function UpdatePlan(os: Os, sha: string, path: string, incremental: bool, head: string): seq<seq<string>> {
    CleanPlan(os, path, incremental) + [ShaCommand(path)] + UpdateCommands(sha, path, head)
  }

  /** An executor under which every command succeeds and prints `out`. */
  ghost predicate AllSucceed(env: Env, out: string) {
    forall k, c :: env.exec(k, c) == Exited(0, out)
  }

  /** `git_sha` under an executor where `rev-parse` prints a stripped
      head. */
  lemma GitShaReads(env: Env, trace: Trace, path: string, head: string)
    requires env.exec(|trace|, ShaCommand(path)) == Exited(0, head) && Strip(head) == head
    ensures GitSha(env, trace, path) == Step(Ok(head), trace + [Run(ShaCommand(path), env.defaultTimeout)])
  {
  }

  lemma UpdateAttemptPlan(env: Env, trace: Trace, sha: string, path: string, incremental: bool, head: string)
    requires AllSucceed(env, head) && Strip(head) == head
    ensures UpdateAttempt(env, trace, sha, path, incremental).result.Ok?
    ensures UpdateAttempt(env, trace, sha, path, incremental).trace ==
      trace + RunsOf(UpdatePlan(env.os, sha, path, incremental, head), env.defaultTimeout)
  {
    var d := env.defaultTimeout;
    var clean := CleanPlan(env.os, path, incremental);
    var t0 := trace + RunsOf(clean, d);
    var t1 := t0 + [Run(ShaCommand(path), d)];
    var update := UpdateCommands(sha, path, head);
    var s0 := RunAll(env, trace, clean);
    assert s0.result.Ok? && s0.trace == t0 by {
      RunAllSucceeds(env, trace, clean, head);
    }
    assert GitSha(env, t0, path) == Step(Ok(head), t1) by {
      GitShaReads(env, t0, path, head);
    }
    var s2 := RunAll(env, t1, update);
    assert s2.result.Ok? && s2.trace == t1 + RunsOf(update, d) by {
      RunAllSucceeds(env, t1, update, head);
    }
    assert UpdateAttempt(env, trace, sha, path, incremental) == s2;
    assert UpdatePlan(env.os, sha, path, incremental, head) == clean + [ShaCommand(path)] + update;
    RunsAround(trace, clean, ShaCommand(path), update, d);
  }

  /** When every command succeeds, `git_update` returns 0 after cleaning
      unless incremental, reading the head, and then only checking out when
      the head is already at `sha`, or fetching, checking out and updating
      submodules when it is not. */
  lemma GitUpdatePlan(env: Env, trace: Trace, url: string, sha: string, path: string, incremental: bool, head: string)
    requires AllSucceed(env, head) && Strip(head) == head
    ensures GitUpdate(env, trace, url, sha, path, incremental) ==
      Step(Ok(0), trace + RunsOf(UpdatePlan(env.os, sha, path, incremental, head), env.defaultTimeout))
  {
    UpdateAttemptPlan(env, trace, sha, path, incremental, head);
    UpdateAttemptZeros(env, trace, sha, path, incremental);
  }

  /** The statuses the try block of `git_update` collects are all 0. */
  lemma UpdateAttemptZeros(env: Env, trace: Trace, sha: string, path: string, incremental: bool)
    ensures UpdateAttempt(env, trace, sha, path, incremental).result.Ok? ==>
      AllZero(UpdateAttempt(env, trace, sha, path, incremental).result.value) == 0
  {
    var s0 := RunAll(env, trace, CleanPlan(env.os, path, incremental));
    if s0.result.Ok? {
      var current := GitSha(env, s0.trace, path);
      if current.result.Ok? {
        RunAllCollectsZeros(env, current.trace, UpdateCommands(sha, path, current.result.value));
        assert UpdateAttempt(env, trace, sha, path, incremental) == ShaThenUpdate(env, s0.trace, sha, path);
      }
    }
  }

  /** An executor under which only the fetch of `path` fails, with status
      128, and every other command prints `head`. */
  ghost predicate FetchFails(env: Env, path: string, head: string) {
    forall k, c :: env.exec(k, c) == if c == FetchCommand(path) then Exited(128, []) else Exited(0, head)
  }

  /** When each of its commands succeeds, `git_clone` runs them once each,
      in order, and returns 0. */
  lemma GitCloneSucceeds(env: Env, trace: Trace, url: string, path: string, tree: Option<string>, recursive: bool, out: string)
    requires SucceedOn(env, CloneCommands(url, path, tree, recursive), out)
    ensures GitClone(env, trace, url, path, tree, recursive) ==
      Step(Ok(0), trace + RunsOf(CloneCommands(url, path, tree, recursive), env.defaultTimeout))
  {
    RunAllSucceeds(env, trace, CloneCommands(url, path, tree, recursive), out);
    GitCloneNeverReportsFailure(env, trace, url, path, tree, recursive);
  }

  /** Each of `commands` returns 0 when run from position `start` of the
      session on, one after the other. */
  predicate PassFrom(env: Env, start: nat, commands: seq<seq<string>>)
    decreases |commands|
  {
    commands == [] || (StatusAt(env, start, commands[0]) == 0 && PassFrom(env, start + 1, commands[1..]))
  }

  /** A first command that returns 0 hands over to the rest. */
  lemma RunAllStep(env: Env, trace: Trace, commands: seq<seq<string>>)
    requires commands != [] && StatusAt(env, |trace|, commands[0]) == 0
    ensures var rest := RunAll(env, trace + [Run(commands[0], env.defaultTimeout)], commands[1..]);
      RunAll(env, trace, commands).trace == rest.trace &&
      (RunAll(env, trace, commands).result.Ok? <==> rest.result.Ok?) &&
      (rest.result.Err? ==> RunAll(env, trace, commands) == rest)
  {
    CheckPasses(env, trace, commands[0]);
  }

  lemma RunsOfStep(trace: Trace, commands: seq<seq<string>>, d: nat)
    requires commands != []
    ensures trace + [Run(commands[0], d)] + RunsOf(commands[1..], d) == trace + RunsOf(commands, d)
  {
    RunsOfFirst(commands, d);
  }

  /** `RunAll` over commands that each return 0, one run per command. */
  lemma {:induction false} RunAllPasses(env: Env, trace: Trace, commands: seq<seq<string>>)
    requires PassFrom(env, |trace|, commands)
    ensures RunAll(env, trace, commands).result.Ok?
    ensures RunAll(env, trace, commands).trace == trace + RunsOf(commands, env.defaultTimeout)
    decreases |commands|
  {
    if commands == [] {
      assert trace + [] == trace;
    } else {
      RunAllStep(env, trace, commands);
      RunAllPasses(env, trace + [Run(commands[0], env.defaultTimeout)], commands[1..]);
      RunsOfStep(trace, commands, env.defaultTimeout);
    }
  }

  /** `RunAll` stops at the first command that does not return 0: it has
      run that command and the ones before it, and raises
      ExecuteCommandFailure with its status. */
  lemma {:induction false} RunAllStopsAt(env: Env, trace: Trace, start: nat, commands: seq<seq<string>>, k: nat)
    requires start == |trace| && k < |commands| && PassFrom(env, start, commands[..k])
    requires StatusAt(env, start + k, commands[k]) != 0
    ensures RunAll(env, trace, commands) ==
      Step(Err(ExecuteCommandFailure(commands[k], StatusAt(env, start + k, commands[k]))),
           trace + RunsOf(commands[..k + 1], env.defaultTimeout))
    decreases k
  {
    if k == 0 {
      CheckRaises(env, trace, commands[0]);
      assert RunsOf(commands[..1], env.defaultTimeout) == [Run(commands[0], env.defaultTimeout)];
    } else {
      assert commands[..k][0] == commands[0] && commands[..k][1..] == commands[1..][..k - 1];
      RunAllStep(env, trace, commands);
      assert start + k == (start + 1) + (k - 1) && commands[k] == commands[1..][k - 1];
      RunAllStopsAt(env, trace + [Run(commands[0], env.defaultTimeout)], start + 1, commands[1..], k - 1);
      assert commands[1..][..k] == commands[..k + 1][1..];
      RunsOfStep(trace, commands[..k + 1], env.defaultTimeout);
    }
  }

  /** Command `m` of `commands`, run from position `start` on, is the first
      to exit with a non-zero status. */
  predicate FirstFailure(env: Env, start: nat, commands: seq<seq<string>>, m: nat) {
    m < |commands| && PassFrom(env, start, commands[..m]) && StatusAt(env, start + m, commands[m]) != 0
  }

  /** The try block when a cleaning command fails. */
  lemma TryFailsInClean(env: Env, trace: Trace, clean: seq<seq<string>>, sha: string, path: string, k: nat)
    requires FirstFailure(env, |trace|, clean, k)
    ensures TryUpdate(env, trace, clean, sha, path) ==
      Step(Err(ExecuteCommandFailure(clean[k], StatusAt(env, |trace| + k, clean[k]))),
           trace + RunsOf(clean[..k + 1], env.defaultTimeout))
  {
    RunAllStopsAt(env, trace, |trace|, clean, k);
  }

  /** The try block once the cleaning has passed and `rev-parse` has
      printed `head`: what is left is the update commands. */
  lemma TryAfterSha(env: Env, trace: Trace, clean: seq<seq<string>>, sha: string, path: string, head: string, t0: Trace)
    ensures (Strip(head) == head && PassFrom(env, |trace|, clean) &&
             env.exec(|trace| + |clean|, ShaCommand(path)) == Exited(0, head) &&
             t0 == trace + RunsOf(clean, env.defaultTimeout)) ==>
      TryUpdate(env, trace, clean, sha, path) ==
      RunAll(env, t0 + [Run(ShaCommand(path), env.defaultTimeout)], UpdateCommands(sha, path, head))
  {
    if Strip(head) == head && PassFrom(env, |trace|, clean) &&
       env.exec(|trace| + |clean|, ShaCommand(path)) == Exited(0, head) &&
       t0 == trace + RunsOf(clean, env.defaultTimeout) {
      RunAllPasses(env, trace, clean);
      assert |t0| == |trace| + |clean|;
      ShaThenUpdateReads(env, t0, sha, path, head);
    }
  }

  /** `git_sha` reads `head`, and the update commands for it follow. */
  lemma ShaThenUpdateReads(env: Env, trace: Trace, sha: string, path: string, head: string)
    requires env.exec(|trace|, ShaCommand(path)) == Exited(0, head) && Strip(head) == head
    ensures ShaThenUpdate(env, trace, sha, path) ==
      RunAll(env, trace + [Run(ShaCommand(path), env.defaultTimeout)], UpdateCommands(sha, path, head))
  {
    GitShaReads(env, trace, path, head);
  }

  /** `RunAll` over `rest` after the runs of `pre` and of `c`, when the
      `m`-th command of `rest` is the first to fail. */
  lemma StopsAfterPrefix(env: Env, trace: Trace, pre: seq<seq<string>>, c: seq<string>, t1: Trace,
                         rest: seq<seq<string>>, m: nat)
    ensures (t1 == trace + RunsOf(pre, env.defaultTimeout) + [Run(c, env.defaultTimeout)] &&
             FirstFailure(env, |trace| + |pre| + 1, rest, m)) ==>
      RunAll(env, t1, rest) ==
      Step(Err(ExecuteCommandFailure(rest[m], StatusAt(env, |trace| + |pre| + 1 + m, rest[m]))),
           trace + RunsOf(pre + [c] + rest[..m + 1], env.defaultTimeout))
  {
    if t1 == trace + RunsOf(pre, env.defaultTimeout) + [Run(c, env.defaultTimeout)] &&
       FirstFailure(env, |trace| + |pre| + 1, rest, m) {
      assert |t1| == |trace| + |pre| + 1;
      RunAllStopsAt(env, t1, |trace| + |pre| + 1, rest, m);
      RunsAround(trace, pre, c, rest[..m + 1], env.defaultTimeout);
    }
  }

  /** The try block when a command after `rev-parse` fails. */
  lemma TryFailsAfterSha(env: Env, trace: Trace, clean: seq<seq<string>>, sha: string, path: string, head: string, m: nat)
    requires Strip(head) == head && PassFrom(env, |trace|, clean)
    requires env.exec(|trace| + |clean|, ShaCommand(path)) == Exited(0, head)
    requires FirstFailure(env, |trace| + |clean| + 1, UpdateCommands(sha, path, head), m)
    ensures TryUpdate(env, trace, clean, sha, path) ==
      Step(Err(ExecuteCommandFailure(UpdateCommands(sha, path, head)[m],
                                     StatusAt(env, |trace| + |clean| + 1 + m, UpdateCommands(sha, path, head)[m]))),
           trace + RunsOf(clean + [ShaCommand(path)] + UpdateCommands(sha, path, head)[..m + 1], env.defaultTimeout))
  {
    TryAfterSha(env, trace, clean, sha, path, head, trace + RunsOf(clean, env.defaultTimeout));
    StopsAfterPrefix(env, trace, clean, ShaCommand(path),
                     trace + RunsOf(clean, env.defaultTimeout) + [Run(ShaCommand(path), env.defaultTimeout)],
                     UpdateCommands(sha, path, head), m);
  }

  /** When the `k`-th cleaning command of a non-incremental update is the
      first to fail, `git_update` removes the directory and hands over to
      `git_clone` at `sha`; `t` is the session up to the failing command. */
  lemma FallbackAfterCleanFails(env: Env, trace: Trace, url: string, sha: string, path: string, k: nat, t: Trace)
    requires FirstFailure(env, |trace|, CleanCommands(env.os, path), k)
    requires t == trace + RunsOf(CleanCommands(env.os, path)[..k + 1], env.defaultTimeout)
    requires StatusAt(env, |t|, ["rm", "-rf", path]) == 0
    ensures GitUpdate(env, trace, url, sha, path, false) ==
      GitClone(env, t + [Run(["rm", "-rf", path], env.defaultTimeout)], url, path, Some(sha), true)
  {
    TryFailsInClean(env, trace, CleanCommands(env.os, path), sha, path, k);
    CheckPasses(env, t, ["rm", "-rf", path]);
  }

  /** When the cleaning (if any) passes, `rev-parse` prints `head` and the
      `m`-th of the update commands is the first to fail, `git_update`
      removes the directory and hands over to `git_clone` at `sha`; `t` is
      the session up to the failing command. */
  lemma FallbackAfterUpdateFails(env: Env, trace: Trace, url: string, sha: string, path: string, incremental: bool,
                                 head: string, m: nat, t: Trace)
    requires Strip(head) == head && PassFrom(env, |trace|, CleanPlan(env.os, path, incremental))
    requires env.exec(|trace| + |CleanPlan(env.os, path, incremental)|, ShaCommand(path)) == Exited(0, head)
    requires FirstFailure(env, |trace| + |CleanPlan(env.os, path, incremental)| + 1, UpdateCommands(sha, path, head), m)
    requires t == trace + RunsOf(CleanPlan(env.os, path, incremental) + [ShaCommand(path)] +
                                 UpdateCommands(sha, path, head)[..m + 1], env.defaultTimeout)
    requires StatusAt(env, |t|, ["rm", "-rf", path]) == 0
    ensures GitUpdate(env, trace, url, sha, path, incremental) ==
      GitClone(env, t + [Run(["rm", "-rf", path], env.defaultTimeout)], url, path, Some(sha), true)
  {
    TryFailsAfterSha(env, trace, CleanPlan(env.os, path, incremental), sha, path, head, m);
    CheckPasses(env, t, ["rm", "-rf", path]);
  }

  /** The fallback clone at `sha` succeeds when only the fetch fails. */
  lemma FallbackCloneSucceeds(env: Env, trace: Trace, url: string, sha: string, path: string, head: string)
    requires FetchFails(env, path, head) && sha != []
    ensures GitClone(env, trace, url, path, Some(sha), true) ==
      Step(Ok(0), trace + RunsOf(CloneCommands(url, path, Some(sha), true), env.defaultTimeout))
  {
    var clone := CloneCommands(url, path, Some(sha), true);
    assert clone == [CloneCommand(url, path), CheckoutCommand(sha, path, true), SubmoduleCommand(path)];
    CheckoutForcePlacement(sha, path);
    assert SucceedOn(env, clone, head) by {
      forall k, c | c in clone ensures env.exec(k, c) == Exited(0, head) {
        assert c != FetchCommand(path);
      }
    }
    GitCloneSucceeds(env, trace, url, path, Some(sha), true, head);
  }

  /** `git_update` never returns 1 either. */
  lemma GitUpdateNeverReportsFailure(env: Env, trace: Trace, url: string, sha: string, path: string, incremental: bool)
    ensures GitUpdate(env, trace, url, sha, path, incremental).result.Ok? ==>
      GitUpdate(env, trace, url, sha, path, incremental).result.value == 0
  {
    var a := UpdateAttempt(env, trace, sha, path, incremental);
    if a.result.Ok? {
      UpdateAttemptZeros(env, trace, sha, path, incremental);
    } else if a.result.error.ExecuteCommandFailure? {
      var rm := Check(env, a.trace, ["rm", "-rf", path]);
      if rm.result.Ok? {
        GitCloneNeverReportsFailure(env, rm.trace, url, path, Some(sha), true);
      }
    }
  }
}
