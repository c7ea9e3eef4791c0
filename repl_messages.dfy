/**
 * The JS REPL's message collector (`ReplMessageCollector`, present in the scripting compiler and,
 * as an identical copy, in the `jsrepl` library) and its code-line constructor `makeReplCodeLine`.
 */
module ReplMessages {
  import Text

  datatype Severity = EXCEPTION | ERROR | STRONG_WARNING | WARNING | INFO | LOGGING | OUTPUT

  /** The enum constant's name, which is what `toString()` prints. */
  function SeverityName(s: Severity): string
  {
    match s
    case EXCEPTION => "EXCEPTION"
    case ERROR => "ERROR"
    case STRONG_WARNING => "STRONG_WARNING"
    case WARNING => "WARNING"
    case INFO => "INFO"
    case LOGGING => "LOGGING"
    case OUTPUT => "OUTPUT"
  }

  /** Severity names are upper-case words. */
  lemma SeverityNameIsOneWord(s: Severity)
    ensures forall k :: 0 <= k < |SeverityName(s)| ==> 'A' <= SeverityName(s)[k] <= 'Z' || SeverityName(s)[k] == '_'
  {
  }

  datatype Message = Message(severity: Severity, text: string)

  /** A REPL code line: its number, its generation and its code. */
  datatype ReplCodeLine = ReplCodeLine(no: int, generation: int, code: string)

  /** `makeReplCodeLine(no, code)`: the line numbered `no`, always in generation 0. */
  function MakeReplCodeLine(no: int, code: string): (r: ReplCodeLine)
    ensures r.no == no && r.code == code && r.generation == 0
  {
    ReplCodeLine(no, 0, code)
  }

  /** One message as `getMessage` prints it. */
  function MessageLine(m: Message): string
  {
    SeverityName(m.severity) + " : " + m.text + "\n"
  }

  /** The printed messages, in the order they were reported. */
  function MessageLines(ms: seq<Message>): string
  {
    if ms == [] then "" else MessageLines(ms[..|ms| - 1]) + MessageLine(ms[|ms| - 1])
  }

  /** The first line of `getMessage()`: how many problems were reported. */
  function Header(n: nat): string
  {
    "Found " + Text.NatToString(n) + " problems:\n"
  }

  /** `getMessage()`'s text: the count of problems, then one line per message. */
  function MessageText(ms: seq<Message>): string
  {
    Header(|ms|) + MessageLines(ms)
  }

  predicate HasErrorMessage(ms: seq<Message>)
  {
    exists i :: 0 <= i < |ms| && ms[i].severity == ERROR
  }

  /** Appending one message appends its line to the printed messages. */
  lemma MessageLinesAppend(ms: seq<Message>, m: Message)
    ensures MessageLines(ms + [m]) == MessageLines(ms) + MessageLine(m)
  {
    assert (ms + [m])[..|ms + [m]| - 1] == ms;
  }

  /** One more iteration of `getMessage`'s loop prints one more message. */
  lemma PrintedPrefixStep(header: string, ms: seq<Message>, i: nat)
    requires i < |ms|
    ensures header + MessageLines(ms[..i]) + MessageLine(ms[i]) == header + MessageLines(ms[..i + 1])
  {
    assert ms[..i + 1] == ms[..i] + [ms[i]];
    MessageLinesAppend(ms[..i], ms[i]);
  }

  /** Every message text without line breaks gives exactly one line per message. */
  lemma {:induction false} OneLinePerMessage(ms: seq<Message>)
    requires forall i :: 0 <= i < |ms| ==> Text.Count(ms[i].text, '\n') == 0
    ensures Text.Count(MessageLines(ms), '\n') == |ms|
  {
    if ms != [] {
      var init := ms[..|ms| - 1];
      var m := ms[|ms| - 1];
      OneLinePerMessage(init);
      var name := SeverityName(m.severity);
      SeverityNameIsOneWord(m.severity);
      Text.CountZero(name, '\n');
      Text.CountZero(" : ", '\n');
      Text.CountAppend(MessageLines(init), MessageLine(m), '\n');
      Text.CountAppend(name + " : " + m.text, "\n", '\n');
      Text.CountAppend(name + " : ", m.text, '\n');
      Text.CountAppend(name, " : ", '\n');
      assert Text.Count("\n", '\n') == 1;
    }
  }

  /** The whole message is the count header followed by the printed messages. */
  lemma MessageTextShape(ms: seq<Message>)
    ensures Header(|ms|) <= MessageText(ms) && MessageText(ms)[|Header(|ms|)|..] == MessageLines(ms)
  {
    var header, lines := Header(|ms|), MessageLines(ms);
    assert (header + lines)[..|header|] == header;
    assert (header + lines)[|header|..] == lines;
  }

  class ReplMessageCollector {
    var hasErrors: bool
    var messages: seq<Message>

    /** The flag records whether any reported message was an error. */
    predicate Valid()
      reads this
    {
      hasErrors <==> HasErrorMessage(messages)
    }

    constructor()
      ensures Valid() && !hasErrors && messages == []
    {
      hasErrors := false;
      messages := [];
    }

    /** `clear()`: forgets the flag and the messages. */
    method Clear()
      modifies this
      ensures Valid() && !hasErrors && messages == []
    {
      hasErrors := false;
      messages := [];
    }

    /** `report(severity, message, location)`: an error sets the flag; every message is appended. */
    method Report(severity: Severity, message: string)
      requires Valid()
      modifies this
      ensures Valid()
      ensures messages == old(messages) + [Message(severity, message)]
      ensures hasErrors == (old(hasErrors) || severity == ERROR)
    {
      if severity == ERROR {
        hasErrors := true;
      }
      ghost var before := messages;
      messages := messages + [Message(severity, message)];
      assert forall i :: 0 <= i < |before| ==> messages[i] == before[i];
      assert messages[|before|] == Message(severity, message);
    }

    /** `hasErrors()`: whether an error was reported since the last `clear`. */
    method HasErrors() returns (r: bool)
      requires Valid()
      ensures r <==> exists i :: 0 <= i < |messages| && messages[i].severity == ERROR
    {
      return hasErrors;
    }

    /** `hasNotErrors()`: the negation of `hasErrors()`. */
    method HasNotErrors() returns (r: bool)
      requires Valid()
      ensures r <==> forall i :: 0 <= i < |messages| ==> messages[i].severity != ERROR
    {
      return !hasErrors;
    }

    /** `getMessage()`, built in a string builder. */
    method GetMessage() returns (r: string)
      ensures r == MessageText(messages)
    {
      var ms := messages;
      var header := Header(|ms|);
      r := header;
      for i := 0 to |ms|
        invariant r == header + MessageLines(ms[..i])
      {
        PrintedPrefixStep(header, ms, i);
        r := r + MessageLine(ms[i]);
      }
      assert ms[..|ms|] == ms;
    }
  }
}
