/** The conversation history sent to the chat endpoint: one system message,
    then for each chunk of code a user message carrying it and an empty
    assistant message standing in for the reply. */
module Session {

  datatype Role = System | User | Assistant

  datatype Msg = Msg(role: Role, content: string)

  const SystemPrompt: string := "Analyze the following Python code."

  /** The message that opens every history. */
  const SystemMsg: Msg := Msg(System, SystemPrompt)

  /** A user message followed by an empty assistant placeholder: the builder
      appends one such pair per chunk, and resuming the session with a new
      message sends exactly this pair as its whole message list. */
  function UserTurn(content: string): seq<Msg>
  {
    [Msg(User, content), Msg(Assistant, "")]
  }

  /** The history after the first n chunks have been appended. */
  function History(chunks: seq<string>): seq<Msg>
  {
    if chunks == [] then [SystemMsg]
    else History(chunks[..|chunks| - 1]) + UserTurn(chunks[|chunks| - 1])
  }

  /** The message list of analyze_code_with_chatgpt_in_session, built by
      appending to a list in a loop over the chunks. */
  method BuildSessionMessages(codeChunks: seq<string>) returns (messages: seq<Msg>)
    ensures messages == History(codeChunks)
  {
    messages := [SystemMsg];
    for i := 0 to |codeChunks|
      invariant messages == History(codeChunks[..i])
    {
      var chunk := codeChunks[i];
      messages := messages + [Msg(User, chunk)];
      messages := messages + [Msg(Assistant, "")];
      assert codeChunks[..i + 1][..i] == codeChunks[..i];
    }
    assert codeChunks[..|codeChunks|] == codeChunks;
  }

  /** For n chunks the history holds 1 + 2n messages: the system message first,
      then chunk i as a user message at 2i+1 followed by an empty assistant
      message at 2i+2. */
  lemma {:induction false} HistoryShape(chunks: seq<string>)
    ensures |History(chunks)| == 1 + 2 * |chunks|
    ensures History(chunks)[0] == Msg(System, "Analyze the following Python code.")
    ensures forall i :: 0 <= i < |chunks| ==>
              History(chunks)[2 * i + 1] == Msg(User, chunks[i]) &&
              History(chunks)[2 * i + 2] == Msg(Assistant, "")
  {
    if chunks != [] {
      var front := chunks[..|chunks| - 1];
      HistoryShape(front);
      forall i | 0 <= i < |chunks|
        ensures History(chunks)[2 * i + 1] == Msg(User, chunks[i])
        ensures History(chunks)[2 * i + 2] == Msg(Assistant, "")
      {
        if i < |front| {
          assert chunks[i] == front[i];
        }
      }
    }
  }

  /** The user contents of a message list, in order. */
  function UserContents(messages: seq<Msg>): seq<string>
  {
    if messages == [] then []
    else UserContents(messages[..|messages| - 1])
         + (if messages[|messages| - 1].role == User then [messages[|messages| - 1].content] else [])
  }

  /** Reading the user messages back out of the history gives the chunks, in
      their original order: nothing is lost, repeated or reordered. */
  lemma {:induction false} UserContentsOfHistory(chunks: seq<string>)
    ensures UserContents(History(chunks)) == chunks
  {
    if chunks == [] {
      assert [SystemMsg][..0] == [];
    } else {
      var front, last := chunks[..|chunks| - 1], chunks[|chunks| - 1];
      UserContentsOfHistory(front);
      var h := History(chunks);
      assert h[..|h| - 1] == History(front) + [Msg(User, last)];
      assert (History(front) + [Msg(User, last)])[..|History(front)|] == History(front);
      assert chunks == front + [last];
    }
  }
}
