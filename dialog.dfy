/** The terminal as the flows see it: a script of typed lines consumed one
    input() call at a time, and the shapes every dialogue result takes. */
module Dialog {
  import opened Common

  /** What a prompt helper hands back: a value, the user's cancel, the end of
      the script (input() raising EOFError), or an exception. */
  datatype Reply<T> = Given(value: T) | Cancelled | Exhausted | Failed(error: PyError)

  /** A prompt helper's reply together with the lines it left unread. */
  datatype Prompted<T> = Prompted(reply: Reply<T>, rest: seq<string>)

  /** How a whole flow ends: it returns a navigation token to the menu, it is
      cut short by the end of the script, or it raises. */
  datatype FlowOutcome = Returned(token: string) | EndOfInput | Crashed(error: PyError)

  /** A finished flow: its outcome, the state it leaves and the unread lines. */
  datatype Ended<S> = Ended(outcome: FlowOutcome, state: S, rest: seq<string>)

  /** rest is what is left of inputs after some lines were read from its front. */
  ghost predicate SuffixOf(rest: seq<string>, inputs: seq<string>)
  {
    |rest| <= |inputs| && rest == inputs[|inputs| - |rest|..]
  }

  /** The closing input("Press Enter to continue...") of a flow, which then
      returns token; the line read is discarded. */
  function Acknowledge<S>(state: S, token: string, inputs: seq<string>): (e: Ended<S>)
    ensures e.state == state
    ensures inputs == [] <==> e.outcome == EndOfInput
    ensures inputs != [] ==> e.outcome == Returned(token) && e.rest == inputs[1..]
    ensures SuffixOf(e.rest, inputs)
  {
    if inputs == [] then Ended(EndOfInput, state, []) else Ended(Returned(token), state, inputs[1..])
  }

  /** The keyboard: the lines still to be typed. */
  class Console {
    var pending: seq<string>

    constructor (script: seq<string>)
      ensures pending == script
    {
      pending := script;
    }

    /** input(): the next line, or None when the script is used up. */
    method ReadLine() returns (line: Option<string>)
      modifies this
      ensures old(pending) == [] ==> line == None && pending == []
      ensures old(pending) != [] ==> line == Some(old(pending)[0]) && pending == old(pending)[1..]
    {
      if pending == [] {
        line := None;
      } else {
        line := Some(pending[0]);
        pending := pending[1..];
      }
    }

    /** input("Press Enter to continue..."), as Acknowledge describes it. */
    method Acknowledged<S>(state: S, token: string) returns (outcome: FlowOutcome)
      modifies this
      ensures Ended(outcome, state, pending) == Acknowledge(state, token, old(pending))
    {
      var line := ReadLine();
      outcome := if line.None? then EndOfInput else Returned(token);
    }
  }
}
