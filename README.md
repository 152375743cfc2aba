# chatgpt-analyzer, modelled in Dafny

chatgpt-analyzer is a single script. It walks a project directory and
concatenates every Python file into one text, each file after a
`# File: <path>` header. It cuts that text into chunks of 2000 characters and
sends them to a chat-completion endpoint as one conversation. It then lets the
user keep asking questions until they type `exit`.

This project models the deterministic logic inside that script, with the I/O
abstracted away:

- **Strings** (`strings.dfy`): `"".join` as `Concat`, `str.endswith` as
  `EndsWith`, and an ASCII model of `str.lower`.
- **Chunker** (`chunker.dfy`): `split_into_chunks` as the list comprehension
  it is. It uses Python's clamping slices and the element count of
  `range(0, n, size)`. A zero chunk size fails as `range()` does. A negative
  size yields no chunks. The lemmas prove that the chunks join back into the
  text. They also prove that chunk *i* is the slice starting at `i*size`, that
  every chunk but the last is full and the last is non-empty, and that the
  number of chunks is the ceiling of `len(text)/size`.
- **Collector** (`collector.dfy`): `scan_and_read_python_files`. The directory
  walk is given as the ordered list of `(root, files)` steps that `os.walk`
  would yield, and each file comes with the text reading it gives. The method
  keeps the source's two nested loops and its `+=` accumulator. It is proved
  equal to `WalkText`, and `WalkText` is proved equal to an independent
  description: the `.py` entries of the walk, in walk order, each rendered as
  header plus text. The lemmas also prove that the result is empty exactly when
  no file name ends in `.py`.
- **Session** (`session.dfy`): the message list that
  `analyze_code_with_chatgpt_in_session` builds. It is built by a loop that
  appends, is proved equal to `History`, and its exact shape is proved by
  position. Reading the user messages back out gives the chunks in order.
- **Interactive** (`interactive.dfy`): the `while True` loop of
  `interactive_chat`. The terminal is a finite list of lines. Each remote call
  is recorded as the line it would carry and the message list it would send:
  that line as a user message, then an empty assistant placeholder. Exactly
  the lines before the first line whose lower-case form is `exit` are
  forwarded. Lines after it have no effect. Running out of input is reported
  as `InputExhausted`.
- **Pipeline** (`pipeline.dfy`): `main`'s data flow from the collected text
  through `split_into_chunks(…, 2000)` to the first request. Joining the
  request's user messages gives back the whole collected text.

Three facts about the code that the model keeps:

- The exit test lower-cases the line before comparing it with `exit`, so any
  mix of upper and lower case ends the loop.
- Only a zero chunk size raises, in `range()`. A negative size gives an empty
  list, because the range is then empty.
- The first request is built in one shot: every chunk is followed by an empty
  assistant placeholder, and a single call sends the whole list.

## Model

| member | source | states |
|---|---|---|
| Chunker.SplitIntoChunks | chatgpt-analyzer.py:26-28 | a zero chunk size fails as `range()` does; a negative one gives no chunks; for a positive one the chunks join back into the text and there are ceil(len/size) of them |
| Chunker.ChunkCountIsCeiling | chatgpt-analyzer.py:28 | the number of values of `range(0, n, size)` is the ceiling of n/size: it covers n, one fewer would not, and it is 0 exactly when n is 0 |
| Chunker.ChunkStartInside | chatgpt-analyzer.py:28 | every start `i*size` produced by the range lies inside the text |
| Chunker.ChunkAt | chatgpt-analyzer.py:28 | chunk i is `text[i*size .. min((i+1)*size, len)]`; every chunk but the last has exactly `size` characters, the last between 1 and `size` |
| Chunker.ChunksEmpty | chatgpt-analyzer.py:28 | the chunk list is empty exactly when the text is empty |
| Chunker.ChunksPrefix | chatgpt-analyzer.py:28 | the first k chunks joined are the first `k*size` characters: chunks are contiguous and do not overlap |
| Chunker.ChunksConcat | chatgpt-analyzer.py:28 | joining the chunks in order gives back exactly the text |
| Collector.JoinPath | chatgpt-analyzer.py:20 | the joined path ends with the file name |
| Collector.ScanAndReadPythonFiles | chatgpt-analyzer.py:14-24 | the nested loops with their `+=` accumulator compute `WalkText` of the walk |
| Collector.DirTextAppend | chatgpt-analyzer.py:18-23 | one more file in a walk step adds that file's header and text (or nothing) at the end |
| Collector.WalkTextAppend | chatgpt-analyzer.py:17-23 | one more walk step adds that step's text at the end |
| Collector.PythonEntries | chatgpt-analyzer.py:19 | an entry is kept exactly when its name ends in `.py` |
| Collector.EntriesAreWalkFiles | chatgpt-analyzer.py:17-20 | the entries are exactly the walk's files, each under `os.path.join(root, name)` |
| Collector.CollectedIsPythonFilesInWalkOrder | chatgpt-analyzer.py:16-24 | the collected text is one `"\n\n# File: " + path + "\n" + content` segment per `.py` entry, in walk order, and nothing for other files |
| Collector.CollectedEmptyIffNoPythonFiles | chatgpt-analyzer.py:16-24 | the collected text is empty exactly when no file name of the walk ends in `.py` |
| Collector.HeaderPathsArePython | chatgpt-analyzer.py:19-22 | every path that gets a header ends in `.py` |
| Collector.OnlyPythonFileCollected | chatgpt-analyzer.py:18-23 | with `a.py` ("x") and `b.txt` ("y") in one directory, only `a.py`'s segment is collected |
| Session.BuildSessionMessages | chatgpt-analyzer.py:32-35 | the loop appending a user message and an empty assistant message per chunk builds `History` of the chunks |
| Session.HistoryShape | chatgpt-analyzer.py:32-35 | for N chunks the list has 1 + 2N messages: the system message first, chunk i as a user message at 2i+1 and an empty assistant message at 2i+2 |
| Session.UserContentsOfHistory | chatgpt-analyzer.py:33-35 | the user messages of the list are exactly the chunks, in their original order |
| Interactive.ExitSpellings | chatgpt-analyzer.py:57 | a line ends the loop exactly when it is "exit" in any mix of upper and lower case |
| Interactive.ForwardedUpTo | chatgpt-analyzer.py:55-59 | when line k is the first exit line, or k is the end of input, exactly the lines before k are forwarded |
| Interactive.ExitStopsForwarding | chatgpt-analyzer.py:57-59 | whatever follows an exit line is never forwarded |
| Interactive.InteractiveChat | chatgpt-analyzer.py:44-60 | the loop forwards, in order, exactly the lines before the first exit line; each forwarded line makes one call whose message list is that line as a user message followed by an empty assistant message; it reports where it stopped, or that input ran out |
| Pipeline.InitialRequest | chatgpt-analyzer.py:73-76 | the first request holds the system message and one turn per 2000-character chunk, and its user messages joined give back the whole collected text |
| Pipeline.NoPythonFilesSendsSystemMessageOnly | chatgpt-analyzer.py:73-76 | a project without Python files sends the system message alone |

## Left out

- The OpenAI client is not modelled. This covers its construction (line 6), both `chat.completions.create` calls, the `session_id` passed and read back, the content read from each response (lines 37-42 and 46-50), and the replies printed in the interactive loop. These are network calls into code outside the script. A remote call is represented only by the message list it sends.
- Line 6 calls `get_api_key(api_key_file_path)` before either name is defined, so the script as written stops at import. This is not modelled. `get_api_key` (lines 9-12) only reads a file.
- `os.walk`, `open` and UTF-8 decoding are not modelled. The walk is a given list of `(root, files)` steps with the files' texts, and decoding errors are not represented.
- `input`, `print`, `argparse` and the rest of `main` (lines 54-82) are terminal and command-line plumbing. The terminal is a given list of lines.
- Interactive.IsExit: `str.lower` is modelled for ASCII only. For the `exit` test this loses nothing, because no non-ASCII character lowercases to a single `e`, `x`, `i` or `t`.
- Interactive.InteractiveChat: when input runs out, `input()` raises `EOFError`, which nothing catches, so the script ends with a traceback. The model instead returns normally with `InputExhausted`, and what it has sent up to that point.
- Collector.JoinPath: follows POSIX `os.path.join`, not the Windows variant.
