/** interactive_chat with the terminal abstracted: the lines the user types
    are given as a finite sequence, and each remote call is recorded, with the
    message list it sends, instead of being made. */
module Interactive {
  import opened Strings
  import Session

  /** How the loop ends: on an exit line at the given position, or because
      the terminal has no more lines to give. */
  datatype ChatEnd = ExitTyped(at: nat) | InputExhausted

  /** The loop's stop test: the line, lower-cased, reads "exit". */
  predicate IsExit(line: string)
  {
    Lower(line) == "exit"
  }

  /** The lines forwarded to the session, read one after another until an exit
      line or the end of input. */
  function Forwarded(lines: seq<string>): seq<string>
  {
    if lines == [] || IsExit(lines[0]) then [] else [lines[0]] + Forwarded(lines[1..])
  }

  /** The exit test accepts "exit" in any mix of upper and lower case, and
      nothing else. */
  lemma ExitSpellings(line: string)
    ensures IsExit(line) <==>
            |line| == 4 && line[0] in "eE" && line[1] in "xX" && line[2] in "iI" && line[3] in "tT"
  {
    if IsExit(line) {
      assert Lower(line)[0] == 'e' && Lower(line)[1] == 'x';
      assert Lower(line)[2] == 'i' && Lower(line)[3] == 't';
    }
    if |line| == 4 && line[0] in "eE" && line[1] in "xX" && line[2] in "iI" && line[3] in "tT" {
      assert Lower(line) == "exit";
    }
  }

  /** When line k is the first exit line (or k is the end of input), exactly
      the lines before it are forwarded. */
  lemma {:induction false} ForwardedUpTo(lines: seq<string>, k: nat)
    requires k <= |lines|
    requires forall j :: 0 <= j < k ==> !IsExit(lines[j])
    requires k < |lines| ==> IsExit(lines[k])
    ensures Forwarded(lines) == lines[..k]
  {
    if k > 0 {
      ForwardedUpTo(lines[1..], k - 1);
      assert lines[..k] == [lines[0]] + lines[1..][..k - 1];
    }
  }

  /** Once an exit line is read, nothing typed after it is forwarded: the
      lines that follow it change nothing. */
  lemma {:induction false} ExitStopsForwarding(before: seq<string>, exitLine: string, after: seq<string>)
    requires IsExit(exitLine)
    ensures Forwarded(before + [exitLine] + after) == Forwarded(before)
  {
    if before == [] {
      assert before + [exitLine] + after == [exitLine] + after;
    } else {
      assert (before + [exitLine] + after)[1..] == before[1..] + [exitLine] + after;
      ExitStopsForwarding(before[1..], exitLine, after);
    }
  }

  /** The unbounded loop: read a line, stop on an exit line, otherwise resume
      the session with one remote call whose message list is the line as a
      user message followed by an empty assistant placeholder. */
  method InteractiveChat(lines: seq<string>)
    returns (sent: seq<string>, calls: seq<seq<Session.Msg>>, end: ChatEnd)
    ensures sent == Forwarded(lines)
    ensures |calls| == |sent| &&
            forall j :: 0 <= j < |calls| ==> calls[j] == Session.UserTurn(sent[j])
    ensures end.ExitTyped? ==>
              end.at < |lines| && IsExit(lines[end.at]) && sent == lines[..end.at]
    ensures end.InputExhausted? ==> sent == lines
    ensures forall j :: 0 <= j < |sent| ==> !IsExit(lines[j])
  {
    sent, calls := [], [];
    var i := 0;
    while true
      invariant 0 <= i <= |lines|
      invariant sent == lines[..i]
      invariant |calls| == i && forall j :: 0 <= j < i ==> calls[j] == Session.UserTurn(lines[j])
      invariant forall j :: 0 <= j < i ==> !IsExit(lines[j])
      decreases |lines| - i
    {
      if i == |lines| {
        end := InputExhausted;
        break;
      }
      var userInput := lines[i];
      if Lower(userInput) == "exit" {
        end := ExitTyped(i);
        break;
      }
      calls := calls + [Session.UserTurn(userInput)];
      sent := sent + [userInput];
      i := i + 1;
    }
    ForwardedUpTo(lines, i);
    assert lines[..|lines|] == lines;
  }
}
