/** The data flow of main: collect the project's Python files, cut the text
    into chunks of 2000 characters and build the first request from them. */
module Pipeline {
  import opened Strings
  import Chunker
  import Collector
  import Session

  const ChunkSize: nat := 2000

  /** The message list of the first request for a project whose directory walk
      is `walk`: it opens with the system message, carries one user turn per
      chunk, and its user messages joined in order are the whole collected text. */
  function InitialRequest(walk: seq<Collector.WalkDir>): (request: seq<Session.Msg>)
    ensures |request| == 1 + 2 * Chunker.ChunkCount(|Collector.WalkText(walk)|, ChunkSize)
    ensures request[0] == Session.SystemMsg
    ensures Concat(Session.UserContents(request)) == Collector.WalkText(walk)
  {
    var text := Collector.WalkText(walk);
    var chunks := Chunker.SplitIntoChunks(text, ChunkSize).value;
    Session.HistoryShape(chunks);
    Session.UserContentsOfHistory(chunks);
    Session.History(chunks)
  }

  /** A project with no Python file sends the system message alone. */
  lemma NoPythonFilesSendsSystemMessageOnly(walk: seq<Collector.WalkDir>)
    requires forall d, f :: d in walk && f in d.files ==> !Collector.IsPythonFile(f.name)
    ensures InitialRequest(walk) == [Session.SystemMsg]
  {
    Collector.CollectedEmptyIffNoPythonFiles(walk);
    var request := InitialRequest(walk);
    assert |request| == 1;
  }
}
