# Astra LLM study assistant: a verified model of its core

Astra LLM is a Gradio app (`app.py`). A student uploads a PDF. The app
extracts its text and cuts the text into overlapping chunks with
`chunk_text`. It embeds the chunks and stores them in a Chroma collection
named "pdf_documents". Four study tools then retrieve the nearest chunks
and hand them to Gemini: a chat, practice questions, a summary and key
points.

This project models that core in three modules:

- `text.dfy` (module `Text`) holds the Python string builtins the app
  relies on, over `string`:
  - `str.isspace`, with Python's whitespace set;
  - `str.strip()`, `str.rfind` and slicing with clamped bounds;
  - `len(s.split())`, `sep.join(parts)` and `os.path.basename`.
- `chunker.dfy` (module `Chunker`) models `chunk_text`:
  - the `while` loop itself, as the method `ChunkText`;
  - its specification, `Chunks`: the stripped texts of the windows the loop visits;
  - lemmas for termination, window shape, overlap, coverage, chunk counts and the edge cases.
- `session.dfy` (module `App`) models the module globals as the class
  `Session`:
  - the state: the embedder loaded, the store client ready, `pdf_processed`, `current_pdf_name`, and the collection's documents;
  - `initialize_components` and `process_pdf`, the latter as the list of progress messages it yields;
  - the four study tools.
  - The embedding model, Chroma's ranking and Gemini are parameters: a ranker function, a generator function, and a record of which step raises.

The model follows the code of `app.py` wherever a reader might expect
otherwise:

- The next window starts `overlap` characters before the end of the window
  as cut back (lines 61 and 64), not before the end of the full window.
- Text made only of whitespace is not rejected by `chunk_text`. It gives
  chunks that are all `""`. Only the empty string gives no chunks.
- A text whose length lies in `(chunk_size - overlap, chunk_size]` gives two
  chunks, not one, because the loop goes on after a window that reached the end.
  This holds for the 1000 and 200 that `process_pdf` passes, and in general
  when `0 <= overlap` and `2 * overlap <= chunk_size`.
- Replacing the stored chunks is not all-or-nothing. The old collection is
  deleted first, so a later failure leaves `pdf_processed` set while the old
  chunks are gone. If the delete itself fails (the failure is swallowed), the
  new chunks are added to the old ones.
- `process_pdf` is a generator. Its early `return` for a missing upload or
  a missing embedder therefore shows no message at all.

## Model

| member | source | states |
|---|---|---|
| Text.Strip | app.py:63 | `strip()` never makes a string longer; StripSpec states what it keeps. |
| Text.StripSpec | app.py:63 | `strip()` gives `""` exactly when the text is all whitespace. Otherwise the result starts and ends with a non-whitespace character and is the contiguous part of the text between its leading and its trailing whitespace. |
| Text.StripSurrounded | app.py:63 | Stripping `p + m + q` gives back `m`, when `p` and `q` are whitespace and `m` neither starts nor ends with whitespace. So `strip()` removes exactly the surrounding whitespace. |
| Text.StripIdempotent | app.py:63 | Stripping a stripped string changes nothing. |
| Text.BlankSlice | app.py:52 | Any slice of all-whitespace text is all whitespace. |
| Text.Slice | app.py:52 | `s[lo:hi]` has `min(hi, len(s)) - lo` characters when that is positive, and none otherwise. |
| Text.RFind | app.py:55-56 | `rfind` returns -1 or an index holding the character, and no later index holds it. |
| Text.BaseName | app.py:157 | The base name is a suffix of the path with no `/` in it. When it is shorter than the path, a `/` comes right before it. |
| Text.WordsAreTokens | app.py:165 | Every word of `text.split()` is non-empty and holds no whitespace. |
| Text.WordsFromBound | app.py:165 | From any index on there are at most half the remaining characters, rounded up, in words, because words are separated by whitespace. |
| Text.WordCount | app.py:165 | `len(text.split())` is at most `(len(text) + 1) / 2`. |
| Text.WordCountIsRunCount | app.py:165 | `len(text.split())` equals an independent count: the positions where a run of non-whitespace begins. |
| Text.JoinAppend | app.py:211 | Joining `a + b` is joining `a`, then the separator, then joining `b`. |
| Text.JoinEnds | app.py:211 | A join of a non-empty list starts with its first part and ends with its last part. |
| Text.JoinHoldsParts | app.py:211 | Every retrieved document occurs in the joined context. |
| Text.JoinLength | app.py:211 | The joined context has the length of all parts plus one separator between each two. |
| Chunker.BreakPoint | app.py:55-57 | `max(rfind('.'), rfind('\n'))` is -1 or the index of a break character, and no later character is a break. |
| Chunker.LastBreak | app.py:55-57 | The last break of a part of the text is inside that part (or one before it) and is a break character. |
| Chunker.LastBreakIsLast | app.py:55-57 | No character after LastBreak in that part is a break. |
| Chunker.BreakPointInText | app.py:52-57 | The break point found with `rfind` on the sliced window is the text's last break in that window, shifted to the window. |
| Chunker.WindowEnd | app.py:51-61 | The window end lies in `(start, start + chunk_size]`. A window cut back keeps more than `chunk_size / 2 + 1` characters. |
| Chunker.WindowEndRule | app.py:54-61 | A window that stops short of the end of the text, and has a break more than halfway in, ends just after its rightmost break. Every other window keeps its full `chunk_size`. |
| Chunker.CutWindow | app.py:51-61 | One pass of the loop body computes exactly WindowEnd and the untrimmed slice `text[start:end]`. |
| Chunker.Pieces | app.py:63 | One chunk is emitted per window. |
| Chunker.Chunks | app.py:41-66 | `chunk_text` returns one chunk per window it visits, and returns `[]` exactly for the empty text. |
| Chunker.ChunkText | app.py:41-66 | The loop returns exactly Chunks: the stripped windows, in order. |
| Chunker.FirstWindow | app.py:43-50 | The run has a first window exactly when the text is non-empty, and that window starts at 0. |
| Chunker.NextWindow | app.py:61-64 | Each window ends at WindowEnd. The next cursor is that end minus `overlap`. It is either the next window's start (strictly further right, inside the text) or at or past the end of the text, and then the loop stops. |
| Chunker.PiecesStep | app.py:63-64 | The chunks from a cursor on are the stripped window at that cursor, then the chunks from `end - overlap` on. |
| Chunker.Windows | app.py:50-64 | The run of windows from a cursor is empty exactly when the cursor is at or past the end of the text (the loop guard), and otherwise its first window starts at the cursor. |
| Chunker.WindowsCount | app.py:50-64 | The loop runs at most once per character, so it terminates. |
| Chunker.WindowsLast | app.py:50-64 | The loop stops only once the last end minus `overlap` reaches the end of the text. |
| Chunker.WindowsInText | app.py:50-61 | Every window starts inside the text and ends at WindowEnd. |
| Chunker.WindowsLinked | app.py:61-64 | Each next window starts exactly `overlap` characters before the previous window's end as cut back, unclamped (which may lie beyond the text). The cursor strictly increases. |
| Chunker.WindowsShape | app.py:50-64 | The conjunction of the five facts above about the loop's run. |
| Chunker.PiecesAppend | app.py:63 | Appending a window appends its stripped text to the chunks. |
| Chunker.PiecesPrefix | app.py:63 | The chunks of the first `k + 1` windows are those of the first `k`, then the stripped `k`-th window. |
| Chunker.PiecesAt | app.py:63 | There is one chunk per window, and the `i`-th chunk is the stripped `i`-th window. |
| Chunker.PieceInWindow | app.py:52-63 | A stripped window is a contiguous part of the text inside that window. |
| Chunker.ChunksAreStrippedWindows | app.py:51-63 | Each chunk is `strip(text[start:end])` with `end - start <= chunk_size`, and it occurs in the text inside its window. |
| Chunker.CoverageFrom | app.py:61-64 | With `overlap >= 0`, every position from the cursor on lies in some window of the run. |
| Chunker.Coverage | app.py:61-64 | With `overlap >= 0`, the untrimmed windows cover the whole text with no gap. |
| Chunker.ChunkCount | app.py:43-50 | `""` gives no chunks. Any non-empty text gives at least one chunk and at most one per character. So the "Failed to process PDF text" branch cannot be taken. |
| Chunker.BlankTextGivesEmptyChunks | app.py:43-63 | Non-empty all-whitespace text gives a non-empty list of `""` chunks. |
| Chunker.LastChunk | app.py:50-64 | With `overlap >= 0`, once the cursor is within `chunk_size - overlap` of the end, the only chunk left is the rest of the text, stripped. |
| Chunker.ShortTextIsOneChunk | app.py:50-64 | With `overlap >= 0`, a text of length in `(0, chunk_size - overlap]` gives exactly `[text.strip()]`. |
| Chunker.NearFullTextIsTwoChunks | app.py:50-64 | With `0 <= overlap` and `2 * overlap <= chunk_size`, a text of length in `(chunk_size - overlap, chunk_size]` gives exactly `[text.strip(), text[chunk_size - overlap:].strip()]`. |
| Chunker.StallWithoutOverlapBound | app.py:59-64 | `overlap < chunk_size` alone does not keep the cursor moving. The first window of StallText is cut back to `chunk_size / 2 + 2` characters, so when `2 * overlap > chunk_size + 2` the next cursor is at or below 0. |
| Chunker.StallForever | app.py:50-64 | With `chunk_size >= 5` and `overlap = chunk_size / 2 + 2` (below `chunk_size`), the cursor after the first window of StallText is exactly 0 again, so the loop repeats that window forever. |
| App.TopK | app.py:204 | Each tool asks for at least as many documents as it puts into its prompt, and for strictly more exactly for the summary (10) and the key points (8). |
| App.QueryText | app.py:199 | The chat embeds the student's message; the other tools embed a fixed, non-empty phrase. |
| App.ContextDocs | app.py:292 | Summary and key points keep the first `min(5, n)` retrieved documents. Chat and questions keep all of them. Order is kept. |
| App.Consult | app.py:197-229 | A ranking failure gives an error reply carrying its cause. No documents gives the fixed "nothing found" reply, without calling the generator. Otherwise the reply is the generator's text, verbatim, for the prompt over the joined context. Each case holds exactly for its ranking outcome. |
| App.AnswerNeedsStoredChunk | app.py:207-208 | With a ranker that returns only stored documents, a tool answers only when the store holds something. |
| App.ContextFromIndex | app.py:204-211 | The context holds at most 3, 5, 5 or 5 documents, each of them stored, and each of them occurs in the joined text. |
| App.StoredStream | app.py:131-174 | A successful store yields three messages: embedding, storing, and the summary. The chunk count shown in the summary is the one announced for embedding, the file name is the upload's base name and holds no `/`, the page count is the extracted one, and the word count equals the independent count of runs of non-whitespace. |
| App.IndexedStream | app.py:123-174 | The success path after extraction yields four messages, from splitting to the summary. A non-empty text announces between 1 and `len(text)` chunks. |
| App.StoreCause | app.py:137-154 | The exception that escapes storing: the `None` client's attribute error when there is no client, else the collection's creation error, else the add error. None exactly when all three steps pass. A failed delete never escapes. |
| App.StoreStream | app.py:130-177 | After splitting, the stream is two messages ending in the embedding error when encoding fails, three ending in the storing error when storing fails, and otherwise the three of StoredStream. It ends in the summary exactly when both steps succeed, and in an error otherwise. |
| App.Session.constructor | app.py:16-23 | At start-up nothing is loaded or processed, the name is empty and the store is empty. |
| App.Session.Initialize | app.py:68-101 | Without a key, nothing happens. Otherwise the embedder, the client, the collection and the generator are set up in that order. A raising step stops the later ones, the earlier ones keep their effect, and the reply shows the exception's text. `pdf_processed`, the name and the documents do not change. |
| App.Session.ProcessPdf | app.py:103-177 | No upload or no embedder: no message and no change. A failed extraction: two messages, no change. Blank text: two messages, no change. Otherwise the stream is extracting, splitting, then exactly StoreStream for the text's chunks. On success the documents are replaced by the chunks (added to the old ones when the delete failed), the flag is set, and the name is the base name. On failure the flag and name are kept. An embedding failure keeps the documents, and a storing failure after a successful delete leaves none. |
| App.Session.IndexText | app.py:122-177 | For a text that is not blank, the stream is splitting followed by exactly StoreStream for the text's chunks; the "no chunks" branch is never taken (ChunkCount). On success it is IndexedStream and the new state is recorded. On failure the flag and name are kept, and the documents are gone exactly when encoding passed, a client exists and the delete succeeded. |
| App.Session.EmbedAndStore | app.py:130-177 | The stream is exactly StoreStream. On success, the documents are the chunks, or the old ones plus the chunks when the delete failed, and the flag and name are set. On failure the flag and name are kept. An embedding failure leaves the documents alone, and a storing failure after a successful delete leaves none. |
| App.Session.StoreChunks | app.py:137-154 | The delete runs first and its failure is swallowed. The error returned is exactly StoreCause. On success, the documents are the chunks, added to the old ones only when the delete failed. On a failure after a successful delete, the old documents are gone. |
| App.Session.ChatWithPdf | app.py:187-232 | "Upload first" exactly when no PDF is processed. Then "enter a question" exactly when the message is blank. Then, over the top 3 for the message: an error reply with its cause exactly when ranking fails, "nothing found" (chat's own) exactly when it returns nothing, and otherwise the generator's text for the chat prompt, verbatim. Under the session invariant, the embedder and the store client exist past the first refusal. |
| App.Session.GenerateQuestions | app.py:234-272 | "Upload first" exactly when no PDF is processed. Then, over the top 5 for "generate practice questions": an error reply with its cause exactly when ranking fails, "nothing found" (questions' own) exactly when it returns nothing, and otherwise the generator's text, where all are joined, and the requested count reaches the prompt. Under the session invariant, the embedder and the store client exist past the first refusal. |
| App.Session.GenerateSummary | app.py:274-310 | "Upload first" exactly when no PDF is processed. Then, over the top 10 for "summarize document": an error reply with its cause exactly when ranking fails, "nothing found" (the summary's own) exactly when it returns nothing, and otherwise the generator's text, where only the first 5 are joined into the prompt. Under the session invariant, the embedder and the store client exist past the first refusal. |
| App.Session.GetKeyPoints | app.py:312-343 | "Upload first" exactly when no PDF is processed. Then, over the top 8 for "extract key points": an error reply with its cause exactly when ranking fails, "nothing found" (the key points' own) exactly when it returns nothing, and otherwise the generator's text, where only the first 5 are joined into the prompt. Under the session invariant, the embedder and the store client exist past the first refusal. |

## Left out

- PDF text extraction with PyPDF2 (app.py:25-39) is file I/O and a foreign library. The extracted text and page count, or the failure, are inputs to `ProcessPdf`.
- The embedding model, Chroma's cosine ranking and the uuid ids are foreign code and floating point. A `Ranker` function and the `StoreFaults` record stand for them. `WellBehaved` states what the ranker is assumed to return.
- Gemini and `generate_with_gemini` are network calls. The `Generator` function stands for them, and already turns a failure into reply text, as the source does.
- The prompt wording and the message strings are not modelled. A prompt keeps only its context and its question or count; a status message keeps only the data it shows.
- The text of an exception is an uninterpreted cause string. The one exception spelled out is the attribute error that calling `get_or_create_collection` on `None` raises when the store client is missing.
- Text.BaseName: models `os.path.basename` on POSIX only (the last `/` separates); the Windows variant, which also splits at `\` and drive letters, is not modelled.
- The `print` progress lines of `initialize_components` (app.py:79, 83 and 94) go to the console and change nothing; they are not modelled.
- Reading `GOOGLE_API_KEY` from the environment is I/O. `Initialize` takes "key present" as a boolean.
- `Session.Initialize` keeps the collection's documents when it is called again. This assumes the in-process client hands back the same collection.
- A collection that was deleted is modelled as an empty document list.
- The Gradio interface, its launch, and the start-up scripts (`app_verbose.py`, `debug_runner.py`, `test_app.py`, `test_env.py`) hold no logic of the core.
- Concurrency and cancellation: the callbacks run one at a time.
- Chunker.ChunkText: requires arguments for which the loop terminates (`0 < chunk_size`, `overlap < chunk_size`, `2 * overlap <= chunk_size + 2`); beyond them the cursor can move back to 0 or below, so for some arguments the source loops forever (StallForever) or slices with negative indices, and `process_pdf` always passes 1000 and 200.
- The thousands separator in the word count and the `num_questions` formatting are presentation only.
