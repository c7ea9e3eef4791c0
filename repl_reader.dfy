/**
 * The JS REPL test driver (`Repl.kt`): `read` collects input lines until the braces typed so far
 * balance, and the main loop evaluates each input until one is exactly "stop". The input stream
 * is a sequence of lines; the platform line separator is a parameter.
 */
module ReplReader {
  import opened Wrappers
  import Text

  /** How a line changes the brace balance: one up per '{', one down per '}'. */
  function LineBalance(line: string): int
  {
    Text.Count(line, '{') - Text.Count(line, '}')
  }

  /** The brace balance after some lines. */
  function Balance(lines: seq<string>): int
  {
    if lines == [] then 0 else Balance(lines[..|lines| - 1]) + LineBalance(lines[|lines| - 1])
  }

  /** The lines as `read` collects them: each one followed by the separator. */
  function WithSeparators(lines: seq<string>, separator: string): string
  {
    if lines == [] then "" else WithSeparators(lines[..|lines| - 1], separator) + lines[|lines| - 1] + separator
  }

  /** How many lines `read` takes once `i` lines with balance `balance` are in: the do-while tests after each line. */
  function ReadLengthFrom(lines: seq<string>, i: nat, balance: int): (r: Option<nat>)
    requires i <= |lines|
    ensures r.Some? ==> i < r.value <= |lines|
    decreases |lines| - i
  {
    if i == |lines| then None
    else
      var b := balance + LineBalance(lines[i]);
      if b == 0 then Some(i + 1) else ReadLengthFrom(lines, i + 1, b)
  }

  /** How many lines `read` consumes, or `None` when the input ends before the braces balance. */
  function ReadLength(lines: seq<string>): (r: Option<nat>)
    ensures r.Some? ==> 1 <= r.value <= |lines|
    ensures lines == [] ==> r.None?
  {
    ReadLengthFrom(lines, 0, 0)
  }

  /** `k` lines balance, and no shorter non-empty prefix does. */
  predicate FirstBalanced(lines: seq<string>, k: nat)
  {
    1 <= k <= |lines| && Balance(lines[..k]) == 0 && forall j :: 1 <= j < k ==> Balance(lines[..j]) != 0
  }

  lemma BalanceStep(lines: seq<string>, i: nat)
    requires i < |lines|
    ensures Balance(lines[..i + 1]) == Balance(lines[..i]) + LineBalance(lines[i])
  {
    assert lines[..i + 1][..i] == lines[..i];
  }

  lemma {:induction false} ReadLengthFromSpec(lines: seq<string>, i: nat, balance: int)
    requires i <= |lines| && balance == Balance(lines[..i])
    requires forall j :: 1 <= j <= i ==> Balance(lines[..j]) != 0
    ensures ReadLengthFrom(lines, i, balance).Some? ==> FirstBalanced(lines, ReadLengthFrom(lines, i, balance).value)
    ensures ReadLengthFrom(lines, i, balance).None? ==> forall k :: 1 <= k <= |lines| ==> Balance(lines[..k]) != 0
    decreases |lines| - i
  {
    if i < |lines| {
      BalanceStep(lines, i);
      if balance + LineBalance(lines[i]) != 0 {
        ReadLengthFromSpec(lines, i + 1, balance + LineBalance(lines[i]));
      }
    }
  }

  /**
   * `read` stops at the first line after which the braces balance: it takes at least one line, those
   * lines balance, and no shorter prefix does; it finds none only when no prefix of the input balances.
   */
  lemma ReadLengthSpec(lines: seq<string>)
    ensures ReadLength(lines).Some? ==> FirstBalanced(lines, ReadLength(lines).value)
    ensures ReadLength(lines).None? <==> forall k :: 1 <= k <= |lines| ==> Balance(lines[..k]) != 0
  {
    ReadLengthFromSpec(lines, 0, 0);
  }

  /** The collected input is the lines joined by the separator, with one more separator at the end. */
  lemma {:induction false} WithSeparatorsIsJoin(lines: seq<string>, separator: string)
    requires lines != []
    ensures WithSeparators(lines, separator) == Text.Join(lines, separator) + separator
  {
    var init := lines[..|lines| - 1];
    var last := lines[|lines| - 1];
    assert lines == init + [last];
    if init == [] {
      assert WithSeparators(lines, separator) == "" + last + separator;
    } else {
      WithSeparatorsIsJoin(init, separator);
      Text.JoinSnoc(init, last, separator);
    }
  }

  /** The input stream, one line per entry; what has not been read yet. */
  class LineReader {
    var remaining: seq<string>

    constructor(lines: seq<string>)
      ensures remaining == lines
    {
      remaining := lines;
    }
  }

  /**
   * `read(reader)`: the balanced group of lines, each followed by the separator. At the end of the
   * input `readLine` gives null and counting its braces throws.
   */
  method Read(reader: LineReader, separator: string) returns (r: Result<string>)
    modifies reader
    ensures ReadLength(old(reader.remaining)).Some? ==>
      var k := ReadLength(old(reader.remaining)).value;
      (r == Ok(WithSeparators(old(reader.remaining)[..k], separator)) && reader.remaining == old(reader.remaining)[k..])
    ensures ReadLength(old(reader.remaining)).None? ==> r.Err? && reader.remaining == []
  {
    ghost var lines := reader.remaining;
    ghost var n := 0;
    var input := "";
    var balance := 0;
    while true
      invariant n <= |lines| && reader.remaining == lines[n..]
      invariant input == WithSeparators(lines[..n], separator)
      invariant ReadLength(lines) == ReadLengthFrom(lines, n, balance)
      decreases |reader.remaining|
    {
      if reader.remaining == [] {
        return Err("NullPointerException");
      }
      var line := reader.remaining[0];
      reader.remaining := reader.remaining[1..];
      assert lines[..n + 1][..n] == lines[..n];
      input := input + line + separator;
      balance := balance + Text.Count(line, '{');
      balance := balance - Text.Count(line, '}');
      n := n + 1;
      assert lines[n..] == lines[n - 1..][1..];
      if balance == 0 {
        return Ok(input);
      }
    }
  }

  /** The input the main loop treats as the command to stop. */
  predicate IsStop(input: string, separator: string)
  {
    input == "stop" + separator
  }

  datatype Outcome = Stopped | InputEnded

  /** The inputs the main loop evaluates, in order, and how it ends. */
  datatype Session = Session(evaluated: seq<string>, outcome: Outcome)

  /** The session over the given lines. */
  function SessionOf(lines: seq<string>, separator: string): Session
    decreases |lines|
  {
    match ReadLength(lines)
    case None => Session([], InputEnded)
    case Some(k) =>
      var input := WithSeparators(lines[..k], separator);
      if IsStop(input, separator) then Session([], Stopped)
      else
        var rest := SessionOf(lines[k..], separator);
        Session([input] + rest.evaluated, rest.outcome)
  }

  /** No evaluated input is the stop command. */
  lemma {:induction false} StopIsNeverEvaluated(lines: seq<string>, separator: string)
    ensures forall i :: 0 <= i < |SessionOf(lines, separator).evaluated| ==> !IsStop(SessionOf(lines, separator).evaluated[i], separator)
    decreases |lines|
  {
    match ReadLength(lines)
    case None =>
    case Some(k) =>
      if !IsStop(WithSeparators(lines[..k], separator), separator) {
        StopIsNeverEvaluated(lines[k..], separator);
      }
  }

  /** A "stop" line typed at the prompt ends the session before anything else is evaluated. */
  lemma StopLineEndsSession(lines: seq<string>, separator: string)
    requires lines != [] && lines[0] == "stop"
    ensures ReadLength(lines) == Some(1)
    ensures SessionOf(lines, separator) == Session([], Stopped)
  {
    Text.CountZero("stop", '{');
    Text.CountZero("stop", '}');
    assert lines[..1] == ["stop"];
    assert WithSeparators(["stop"], separator) == "" + "stop" + separator;
  }

  /**
   * The main loop: read, stop on "stop", otherwise evaluate and go on. Evaluation is not modelled;
   * `evaluated` lists the inputs handed to `eval`. The end of the input ends the loop with an exception.
   */
  method MainLoop(reader: LineReader, separator: string) returns (evaluated: seq<string>, outcome: Outcome)
    modifies reader
    ensures Session(evaluated, outcome) == SessionOf(old(reader.remaining), separator)
  {
    evaluated := [];
    while true
      invariant SessionOf(old(reader.remaining), separator)
        == Session(evaluated + SessionOf(reader.remaining, separator).evaluated, SessionOf(reader.remaining, separator).outcome)
      decreases |reader.remaining|
    {
      ghost var before := reader.remaining;
      var input := Read(reader, separator);
      if input.Err? {
        return evaluated, InputEnded;
      }
      if input.value == "stop" + separator {
        return evaluated, Stopped;
      }
      assert SessionOf(before, separator).evaluated == [input.value] + SessionOf(reader.remaining, separator).evaluated;
      evaluated := evaluated + [input.value];
    }
  }
}
