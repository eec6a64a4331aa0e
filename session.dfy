/**
 * The study assistant's session: the module globals of `app.py` that the
 * Gradio callbacks read and reassign, `initialize_components`,
 * `process_pdf` with its stream of progress messages, and the four study
 * tools (`chat_with_pdf`, `generate_questions`, `generate_summary`,
 * `get_key_points`) that retrieve chunks from the vector store and hand them
 * to the generator.
 *
 * The embedding model, the vector store's ranking and the generator are
 * foreign code: their outcomes are parameters. A `Ranker` stands for
 * "encode the query, then `collection.query(n_results = k)`" and a
 * `Generator` for `generate_with_gemini`, which already turns a failing
 * call into a reply text of its own.
 */
module App {
  import opened Text
  import opened Chunker

  datatype Option<T> = None | Some(value: T)

  /** The outcome of a call into foreign code: a value, or the text of the
      exception it raised. */
  datatype Result<T> = Ok(value: T) | Err(cause: string)

  /** The file Gradio hands to `process_pdf`. */
  datatype Upload = Upload(path: string)

  /** What `extract_text_from_pdf` returns: the text and the page count. */
  datatype Extracted = Extracted(text: string, pages: nat)

  /** The step of `initialize_components` that raised, if any. The text of
      its exception is a separate input. */
  datatype InitFault = NoFault | LoadEmbedder | CreateClient | CreateCollection | ConfigureGenerator

  /** The three outcomes `initialize_components` reports; an error shows
      the text of the exception. */
  datatype InitReply = MissingKey | Initialized | InitError(cause: string)

  /** The exceptions the later steps of `process_pdf` may meet: from the
      embedding model, from `delete_collection` (which the code swallows),
      from `get_or_create_collection` and from `add`. */
  datatype StoreFaults = StoreFaults(
    encodeError: Option<string>,
    deleteFails: bool,
    createError: Option<string>,
    addError: Option<string>)

  /** The summary shown after a successful upload. */
  datatype Info = Info(fileName: string, pages: nat, words: nat, chunks: nat)

  /** One progress message of `process_pdf`. */
  datatype Status =
    | Extracting
    | NoText
    | Splitting
    | Embedding(chunkCount: nat)
    | Storing
    | Processed(info: Info)
    | ProcessError(cause: string)

  /** The four study tools. */
  datatype Tool = Chat | Questions | Summary | KeyPoints

  /** The prompt handed to the generator: the retrieved context, plus the
      student's question or the number of questions asked for. The fixed
      wording around them is not modelled. */
  datatype Prompt =
    | ChatPrompt(context: string, question: string)
    | QuestionsPrompt(context: string, count: int)
    | SummaryPrompt(context: string)
    | KeyPointsPrompt(context: string)

  /** What a study tool shows. */
  datatype Reply =
    | UploadFirst
    | EnterQuestion
    | NothingFound(tool: Tool)
    | Answer(text: string)
    | Failed(tool: Tool, cause: string)

  /** Encode the query and ask the store for its `k` nearest documents. */
  type Ranker = (seq<string>, string, nat) -> Result<seq<string>>

  /** `generate_with_gemini`. */
  type Generator = Prompt -> string

  /** What Python reports when the store client was never created and
      `process_pdf` calls `get_or_create_collection` on `None`. */
  const NoClientCause: string := "'NoneType' object has no attribute 'get_or_create_collection'"

  /** The separator the retrieved documents are joined with. */
  const ContextSeparator: string := "\n\n"

  /** `n_results` of each tool's query: never fewer than the documents the
      tool puts into its prompt. */
  function TopK(tool: Tool): (k: nat)
    ensures ContextLimit(tool) <= k
    ensures tool == Summary || tool == KeyPoints <==> ContextLimit(tool) < k
  {
    match tool
    case Chat => 3
    case Questions => 5
    case Summary => 10
    case KeyPoints => 8
  }

  /** How many of the retrieved documents reach the prompt. */
  function ContextLimit(tool: Tool): nat {
    match tool
    case Chat => 3
    case Questions => 5
    case Summary => 5
    case KeyPoints => 5
  }

  /** The text each tool embeds as its query: the student's message for the
      chat, a fixed phrase for the others. */
  function QueryText(tool: Tool, message: string): (q: string)
    ensures tool == Chat ==> q == message
    ensures tool != Chat ==> q != []
  {
    match tool
    case Chat => message
    case Questions => "generate practice questions"
    case Summary => "summarize document"
    case KeyPoints => "extract key points"
  }

  /** The documents a tool puts into its prompt: all of them for the chat
      and the questions, the first five for the summary and the key points. */
  function ContextDocs(tool: Tool, docs: seq<string>): (r: seq<string>)
    ensures |r| == (if tool == Summary || tool == KeyPoints then Min(5, |docs|) else |docs|)
    ensures r == docs[..|r|]
  {
    if tool == Summary || tool == KeyPoints then docs[..Min(5, |docs|)] else docs
  }

  /** The retrieved documents joined into the prompt's context. */
  function Context(tool: Tool, docs: seq<string>): string {
    Join(ContextSeparator, ContextDocs(tool, docs))
  }

  /** The prompt a tool builds around its context. */
  function PromptFor(tool: Tool, context: string, message: string, count: int): Prompt {
    match tool
    case Chat => ChatPrompt(context, message)
    case Questions => QuestionsPrompt(context, count)
    case Summary => SummaryPrompt(context)
    case KeyPoints => KeyPointsPrompt(context)
  }

  /** The part every tool shares once its guards have passed: query the
      store, give up with a fixed reply when nothing comes back, and
      otherwise return the generator's text for the prompt built from the
      retrieved documents. The generator is consulted only with a non-empty
      context list. */
  function Consult(tool: Tool, index: seq<string>, message: string, count: int,
                   rank: Ranker, generate: Generator): (r: Reply)
    ensures r.Failed? <==> rank(index, QueryText(tool, message), TopK(tool)).Err?
    ensures r.NothingFound? <==> rank(index, QueryText(tool, message), TopK(tool)) == Ok([])
    ensures r.Answer? <==> (rank(index, QueryText(tool, message), TopK(tool)).Ok?
                            && rank(index, QueryText(tool, message), TopK(tool)).value != [])
    ensures r.Answer? ==>
      var docs := rank(index, QueryText(tool, message), TopK(tool)).value;
      r.text == generate(PromptFor(tool, Context(tool, docs), message, count))
    ensures r.Failed? ==> r.tool == tool && r.cause == rank(index, QueryText(tool, message), TopK(tool)).cause
    ensures r.NothingFound? ==> r.tool == tool
  {
    match rank(index, QueryText(tool, message), TopK(tool))
    case Err(cause) => Failed(tool, cause)
    case Ok(docs) =>
      if docs == [] then NothingFound(tool)
      else Answer(generate(PromptFor(tool, Context(tool, docs), message, count)))
  }

  /** A ranker that behaves as the store does: it returns at most the
      number of documents asked for, and only documents of the index. */
  ghost predicate WellBehaved(rank: Ranker) {
    forall idx: seq<string>, q: string, k: nat :: rank(idx, q, k).Ok? ==>
      |rank(idx, q, k).value| <= k && forall d :: d in rank(idx, q, k).value ==> d in idx
  }

  /** The messages `process_pdf` yields once `chunks` are cut when every
      later step goes through: embedding the chunks, storing, and the
      summary of the upload. */
  function StoredStream(path: string, extracted: Extracted, chunks: seq<string>): (r: seq<Status>)
    ensures |r| == 3 && r[0] == Embedding(|chunks|) && r[1] == Storing && r[2].Processed?
    ensures r[2].info.chunks == r[0].chunkCount
    ensures r[2].info.fileName == BaseName(path) && NoSlash(r[2].info.fileName)
    ensures r[2].info.pages == extracted.pages
    ensures r[2].info.words == RunStarts(extracted.text, 0, true)
  {
    WordCountIsRunCount(extracted.text);
    [Embedding(|chunks|), Storing,
     Processed(Info(BaseName(path), extracted.pages, WordCount(extracted.text), |chunks|))]
  }

  /** The messages `process_pdf` yields after the extraction message when
      every later step goes through: splitting, then the messages of
      StoredStream for the chunks of the text. */
  function IndexedStream(path: string, extracted: Extracted): (r: seq<Status>)
    ensures |r| == 4 && r[0] == Splitting && r[1].Embedding? && r[3].Processed?
    ensures extracted.text != [] ==> 1 <= r[1].chunkCount <= |extracted.text|
    ensures extracted.text == [] ==> r[1].chunkCount == 0
  {
    ChunkCount(extracted.text, DefaultChunkSize, DefaultOverlap);
    [Splitting] + StoredStream(path, extracted, Chunks(extracted.text, DefaultChunkSize, DefaultOverlap))
  }

  /** The exception that escapes the storing step, if any. Without a store
      client the call on `None` raises; otherwise re-creating the
      collection may raise, and then adding the chunks. A failing delete is
      swallowed and never escapes. */
  function StoreCause(faults: StoreFaults, clientReady: bool): (cause: Option<string>)
    ensures !clientReady ==> cause == Some(NoClientCause)
    ensures cause.None? <==> clientReady && faults.createError.None? && faults.addError.None?
    ensures clientReady && faults.createError.Some? ==> cause == faults.createError
    ensures clientReady && faults.createError.None? ==> cause == faults.addError
  {
    if !clientReady then Some(NoClientCause)
    else if faults.createError.Some? then faults.createError
    else faults.addError
  }

  /** The messages `process_pdf` yields after splitting into `chunks`,
      whatever happens: an embedding failure stops after the first message,
      a storing failure after the second, and otherwise the messages of
      StoredStream follow. */
  function StoreStream(path: string, extracted: Extracted, chunks: seq<string>,
                       faults: StoreFaults, clientReady: bool): (r: seq<Status>)
    ensures 2 <= |r| <= 3 && r[0] == Embedding(|chunks|)
    ensures |r| == 2 <==> faults.encodeError.Some?
    ensures faults.encodeError.Some? ==> r[1] == ProcessError(faults.encodeError.value)
    ensures faults.encodeError.None? ==> r[1] == Storing
    ensures r[|r| - 1].Processed? <==> faults.encodeError.None? && StoreCause(faults, clientReady).None?
    ensures r[|r| - 1].ProcessError? <==> !(faults.encodeError.None? && StoreCause(faults, clientReady).None?)
    ensures faults.encodeError.None? && StoreCause(faults, clientReady).Some? ==>
      r[2] == ProcessError(StoreCause(faults, clientReady).value)
  {
    if faults.encodeError.Some? then [Embedding(|chunks|), ProcessError(faults.encodeError.value)]
    else match StoreCause(faults, clientReady)
      case Some(cause) => [Embedding(|chunks|), Storing, ProcessError(cause)]
      case None => StoredStream(path, extracted, chunks)
  }

  /** The module globals of `app.py`. */
  class Session {
    /** `embedding_model is not None` */
    var embedderLoaded: bool
    /** `vector_db_client is not None` */
    var clientReady: bool
    /** `pdf_processed` */
    var pdfProcessed: bool
    /** `current_pdf_name` */
    var currentPdfName: string
    /** The documents of the "pdf_documents" collection. */
    var index: seq<string>

    /** Nothing is processed before an upload has gone through, which
        needs the embedder and the store client; the name of a processed
        upload is a base name. */
    ghost predicate Valid()
      reads this
    {
      && (pdfProcessed ==> embedderLoaded && clientReady)
      && (pdfProcessed ==> NoSlash(currentPdfName))
      && (!pdfProcessed ==> currentPdfName == [] && index == [])
    }

    /** The state at start-up: nothing loaded, nothing processed. */
    constructor ()
      ensures Valid()
      ensures !embedderLoaded && !clientReady && !pdfProcessed
      ensures currentPdfName == [] && index == []
    {
      embedderLoaded := false;
      clientReady := false;
      pdfProcessed := false;
      currentPdfName := [];
      index := [];
    }

    /** `initialize_components`: without an API key nothing happens;
        otherwise the embedder, the store client, the collection and the
        generator are set up in that order, and a step that raises stops
        the rest while the steps before it keep their effect, and the
        reply shows that exception's text, `cause`. The collection's
        documents are kept. */
    method Initialize(keyPresent: bool, fault: InitFault, cause: string) returns (r: InitReply)
      requires Valid()
      modifies this
      ensures Valid()
      ensures !keyPresent ==> r == MissingKey
      ensures keyPresent ==> r == (if fault == NoFault then Initialized else InitError(cause))
      ensures embedderLoaded == (old(embedderLoaded) || (keyPresent && fault != LoadEmbedder))
      ensures clientReady == (old(clientReady) || (keyPresent && fault != LoadEmbedder && fault != CreateClient))
      ensures pdfProcessed == old(pdfProcessed) && currentPdfName == old(currentPdfName)
      ensures index == old(index)
    {
      if !keyPresent {
        return MissingKey;
      }
      if fault == LoadEmbedder {
        return InitError(cause);
      }
      embedderLoaded := true;
      if fault == CreateClient {
        return InitError(cause);
      }
      clientReady := true;
      if fault != NoFault {
        return InitError(cause);
      }
      r := Initialized;
    }

    /** The steps after extraction would all go through. */
    predicate StoreSucceeds(faults: StoreFaults)
      reads this
    {
      faults.encodeError.None? && StoreCause(faults, clientReady).None?
    }

    /** `process_pdf`, a generator: the progress messages it yields, in
        order. Without an upload or an embedder it yields nothing at all;
        a failed extraction or a blank text stops after two messages and
        changes nothing; otherwise IndexText goes on. */
    method ProcessPdf(upload: Option<Upload>, extraction: Result<Extracted>, faults: StoreFaults)
      returns (stream: seq<Status>)
      requires Valid()
      modifies this
      ensures Valid()
      ensures upload.None? || !old(embedderLoaded) ==> stream == [] && unchanged(this)
      ensures upload.Some? && old(embedderLoaded) && extraction.Err? ==>
        stream == [Extracting, ProcessError(extraction.cause)] && unchanged(this)
      ensures upload.Some? && old(embedderLoaded) && extraction.Ok? && Blank(extraction.value.text) ==>
        stream == [Extracting, NoText] && unchanged(this)
      ensures upload.Some? && old(embedderLoaded) && extraction.Ok? && !Blank(extraction.value.text) && old(StoreSucceeds(faults)) ==>
        && stream == [Extracting] + IndexedStream(upload.value.path, extraction.value)
        && index == (if faults.deleteFails then old(index) else []) + Chunks(extraction.value.text, DefaultChunkSize, DefaultOverlap)
        && pdfProcessed && currentPdfName == BaseName(upload.value.path)
      ensures upload.Some? && old(embedderLoaded) && extraction.Ok? && !Blank(extraction.value.text) ==>
        stream == [Extracting, Splitting]
          + StoreStream(upload.value.path, extraction.value,
                        Chunks(extraction.value.text, DefaultChunkSize, DefaultOverlap), faults, old(clientReady))
      ensures upload.Some? && old(embedderLoaded) && extraction.Ok? && !Blank(extraction.value.text) && !old(StoreSucceeds(faults)) ==>
        && pdfProcessed == old(pdfProcessed) && currentPdfName == old(currentPdfName)
        && index == (if faults.encodeError.None? && old(clientReady) && !faults.deleteFails then [] else old(index))
      ensures embedderLoaded == old(embedderLoaded) && clientReady == old(clientReady)
    {
      if upload.None? || !embedderLoaded {
        return [];
      }
      stream := [Extracting];
      if extraction.Err? {
        return stream + [ProcessError(extraction.cause)];
      }
      var text := extraction.value.text;
      StripSpec(text);
      if Strip(text) == [] {
        return stream + [NoText];
      }
      var rest := IndexText(upload.value.path, extraction.value, faults);
      PrependTwo(Extracting, Splitting, rest[1..]);
      assert rest == [Splitting] + rest[1..];
      stream := stream + rest;
    }

    /** The rest of `process_pdf` once the text is known not to be blank:
        split it, then embed, store and record the chunks. The check that
        there is at least one chunk never fails: a text that is not blank
        is not empty, and a text that is not empty gives a chunk. */
    method IndexText(path: string, extracted: Extracted, faults: StoreFaults) returns (rest: seq<Status>)
      requires !Blank(extracted.text)
      modifies this
      ensures old(StoreSucceeds(faults)) ==>
        && rest == IndexedStream(path, extracted)
        && index == (if faults.deleteFails then old(index) else []) + Chunks(extracted.text, DefaultChunkSize, DefaultOverlap)
        && pdfProcessed && currentPdfName == BaseName(path)
      ensures rest == [Splitting]
        + StoreStream(path, extracted, Chunks(extracted.text, DefaultChunkSize, DefaultOverlap), faults, old(clientReady))
      ensures !old(StoreSucceeds(faults)) ==>
        && pdfProcessed == old(pdfProcessed) && currentPdfName == old(currentPdfName)
        && index == (if faults.encodeError.None? && old(clientReady) && !faults.deleteFails then [] else old(index))
      ensures embedderLoaded == old(embedderLoaded) && clientReady == old(clientReady)
    {
      var text := extracted.text;
      var chunks := ChunkText(text, DefaultChunkSize, DefaultOverlap);
      ChunkCount(text, DefaultChunkSize, DefaultOverlap);
      if chunks == [] {
        assert false;
      }
      var tail := EmbedAndStore(path, extracted, chunks, faults);
      rest := [Splitting] + tail;
    }

    /** The part of `process_pdf` after splitting: embed the chunks, store
        them, and record the upload. A successful run yields three more
        messages and replaces the collection's documents by the chunks,
        unless deleting the old collection failed, in which case the chunks
        are added to the old ones. On any failure the processed flag and
        file name stay as they were. An embedding failure leaves the
        documents alone; a storing failure after a successful delete leaves
        none. */
    method EmbedAndStore(path: string, extracted: Extracted, chunks: seq<string>, faults: StoreFaults)
      returns (rest: seq<Status>)
      modifies this
      ensures rest == StoreStream(path, extracted, chunks, faults, old(clientReady))
      ensures old(StoreSucceeds(faults)) ==>
        && rest == StoredStream(path, extracted, chunks)
        && index == (if faults.deleteFails then old(index) else []) + chunks
        && pdfProcessed && currentPdfName == BaseName(path)
      ensures !old(StoreSucceeds(faults)) ==>
        && pdfProcessed == old(pdfProcessed) && currentPdfName == old(currentPdfName)
        && index == (if faults.encodeError.None? && old(clientReady) && !faults.deleteFails then [] else old(index))
      ensures embedderLoaded == old(embedderLoaded) && clientReady == old(clientReady)
    {
      rest := [Embedding(|chunks|)];
      if faults.encodeError.Some? {
        return rest + [ProcessError(faults.encodeError.value)];
      }
      rest := rest + [Storing];
      var storeError := StoreChunks(chunks, faults);
      if storeError.Some? {
        return rest + [ProcessError(storeError.value)];
      }
      currentPdfName := BaseName(path);
      pdfProcessed := true;
      rest := rest + [Processed(Info(currentPdfName, extracted.pages, WordCount(extracted.text), |chunks|))];
    }

    /** The storing step of `process_pdf`: delete the "pdf_documents"
        collection (a failure is swallowed), get or create it again, and add
        the chunks. Returns the cause of the first exception that escapes.
        The old documents are gone as soon as the delete succeeds, whatever
        happens after it. */
    method StoreChunks(chunks: seq<string>, faults: StoreFaults) returns (error: Option<string>)
      modifies this
      ensures error == StoreCause(faults, old(clientReady))
      ensures error.None? <==> old(clientReady) && faults.createError.None? && faults.addError.None?
      ensures error.None? ==> index == (if faults.deleteFails then old(index) else []) + chunks
      ensures error.Some? ==> index == (if old(clientReady) && !faults.deleteFails then [] else old(index))
      ensures !old(clientReady) ==> error == Some(NoClientCause)
      ensures embedderLoaded == old(embedderLoaded) && clientReady == old(clientReady)
      ensures pdfProcessed == old(pdfProcessed) && currentPdfName == old(currentPdfName)
    {
      if clientReady && !faults.deleteFails {
        index := [];
      }
      if !clientReady {
        return Some(NoClientCause);
      }
      if faults.createError.Some? {
        return faults.createError;
      }
      if faults.addError.Some? {
        return faults.addError;
      }
      index := index + chunks;
      error := None;
    }

    /** `chat_with_pdf`: refuse before a PDF is processed, then refuse a
        blank question, then answer from the three nearest chunks; the
        generator's text is returned as it is. Like the other three tools,
        it encodes and queries without checking that the embedder and the
        collection exist: under `Valid()` they do whenever a tool gets past
        its first refusal. */
    function ChatWithPdf(message: string, rank: Ranker, generate: Generator): (r: Reply)
      reads this
      ensures r == UploadFirst <==> !pdfProcessed
      ensures r == EnterQuestion <==> pdfProcessed && Blank(message)
      ensures r.Answer? ==>
        && rank(index, message, 3).Ok? && rank(index, message, 3).value != []
        && r.text == generate(ChatPrompt(Join("\n\n", rank(index, message, 3).value), message))
      ensures r.NothingFound? <==> pdfProcessed && !Blank(message) && rank(index, message, 3) == Ok([])
      ensures r.Answer? <==>
        pdfProcessed && !Blank(message) && rank(index, message, 3).Ok? && rank(index, message, 3).value != []
      ensures r.Failed? <==> pdfProcessed && !Blank(message) && rank(index, message, 3).Err?
      ensures r.Failed? ==> r == Failed(Chat, rank(index, message, 3).cause)
      ensures r.NothingFound? ==> r == NothingFound(Chat)
      ensures Valid() && r != UploadFirst ==> embedderLoaded && clientReady
    {
      StripSpec(message);
      if !pdfProcessed then UploadFirst
      else if Strip(message) == [] then EnterQuestion
      else Consult(Chat, index, message, 0, rank, generate)
    }

    /** `generate_questions`: refuse before a PDF is processed, then ask
        for `count` questions about the five chunks nearest to the phrase
        "generate practice questions". */
    function GenerateQuestions(count: int, rank: Ranker, generate: Generator): (r: Reply)
      reads this
      ensures r == UploadFirst <==> !pdfProcessed
      ensures r != EnterQuestion
      ensures r.Answer? ==>
        var result := rank(index, "generate practice questions", 5);
        && result.Ok? && result.value != []
        && r.text == generate(QuestionsPrompt(Join("\n\n", result.value), count))
      ensures r.NothingFound? <==> pdfProcessed && rank(index, "generate practice questions", 5) == Ok([])
      ensures r.Answer? <==> pdfProcessed && rank(index, "generate practice questions", 5).Ok? && rank(index, "generate practice questions", 5).value != []
      ensures r.Failed? <==> pdfProcessed && rank(index, "generate practice questions", 5).Err?
      ensures r.Failed? ==> r == Failed(Questions, rank(index, "generate practice questions", 5).cause)
      ensures r.NothingFound? ==> r == NothingFound(Questions)
      ensures Valid() && r != UploadFirst ==> embedderLoaded && clientReady
    {
      if !pdfProcessed then UploadFirst
      else Consult(Questions, index, [], count, rank, generate)
    }

    /** `generate_summary`: refuse before a PDF is processed, then
        summarize the first five of the ten chunks nearest to the phrase
        "summarize document". */
    function GenerateSummary(rank: Ranker, generate: Generator): (r: Reply)
      reads this
      ensures r == UploadFirst <==> !pdfProcessed
      ensures r != EnterQuestion
      ensures r.Answer? ==>
        var result := rank(index, "summarize document", 10);
        && result.Ok? && result.value != []
        && r.text == generate(SummaryPrompt(Join("\n\n", result.value[..Min(5, |result.value|)])))
      ensures r.NothingFound? <==> pdfProcessed && rank(index, "summarize document", 10) == Ok([])
      ensures r.Answer? <==> pdfProcessed && rank(index, "summarize document", 10).Ok? && rank(index, "summarize document", 10).value != []
      ensures r.Failed? <==> pdfProcessed && rank(index, "summarize document", 10).Err?
      ensures r.Failed? ==> r == Failed(Summary, rank(index, "summarize document", 10).cause)
      ensures r.NothingFound? ==> r == NothingFound(Summary)
      ensures Valid() && r != UploadFirst ==> embedderLoaded && clientReady
    {
      if !pdfProcessed then UploadFirst
      else Consult(Summary, index, [], 0, rank, generate)
    }

    /** `get_key_points`: refuse before a PDF is processed, then extract
        key points from the first five of the eight chunks nearest to the
        phrase "extract key points". */
    function GetKeyPoints(rank: Ranker, generate: Generator): (r: Reply)
      reads this
      ensures r == UploadFirst <==> !pdfProcessed
      ensures r != EnterQuestion
      ensures r.Answer? ==>
        var result := rank(index, "extract key points", 8);
        && result.Ok? && result.value != []
        && r.text == generate(KeyPointsPrompt(Join("\n\n", result.value[..Min(5, |result.value|)])))
      ensures r.NothingFound? <==> pdfProcessed && rank(index, "extract key points", 8) == Ok([])
      ensures r.Answer? <==> pdfProcessed && rank(index, "extract key points", 8).Ok? && rank(index, "extract key points", 8).value != []
      ensures r.Failed? <==> pdfProcessed && rank(index, "extract key points", 8).Err?
      ensures r.Failed? ==> r == Failed(KeyPoints, rank(index, "extract key points", 8).cause)
      ensures r.NothingFound? ==> r == NothingFound(KeyPoints)
      ensures Valid() && r != UploadFirst ==> embedderLoaded && clientReady
    {
      if !pdfProcessed then UploadFirst
      else Consult(KeyPoints, index, [], 0, rank, generate)
    }
  }

  /** Two messages put in front of a stream one after the other. */
  lemma PrependTwo(a: Status, b: Status, tail: seq<Status>)
    ensures [a] + ([b] + tail) == [a, b] + tail
  {
  }

  /** A tool answers only when the store holds something: the documents a
      well-behaved ranker returns come from the index, so on an empty store
      the generator is never consulted. */
  lemma AnswerNeedsStoredChunk(tool: Tool, index: seq<string>, message: string, count: int,
                               rank: Ranker, generate: Generator)
    requires WellBehaved(rank)
    ensures Consult(tool, index, message, count, rank, generate).Answer? ==> index != []
  {
    var result := rank(index, QueryText(tool, message), TopK(tool));
    if Consult(tool, index, message, count, rank, generate).Answer? {
      assert result.value[0] in result.value;
    }
  }

  /** The prompt's context holds at most ContextLimit documents, each of
      them from the index, and each of them appears in the joined text. */
  lemma ContextFromIndex(tool: Tool, index: seq<string>, message: string, rank: Ranker)
    requires WellBehaved(rank)
    requires rank(index, QueryText(tool, message), TopK(tool)).Ok?
    ensures var docs := ContextDocs(tool, rank(index, QueryText(tool, message), TopK(tool)).value);
      && |docs| <= ContextLimit(tool)
      && (forall d :: d in docs ==> d in index)
      && forall i :: 0 <= i < |docs| ==> Contains(Join(ContextSeparator, docs), docs[i])
  {
    var all := rank(index, QueryText(tool, message), TopK(tool)).value;
    var docs := ContextDocs(tool, all);
    forall d | d in docs ensures d in index {
      var i :| 0 <= i < |docs| && docs[i] == d;
      assert all[i] == d;
    }
    forall i | 0 <= i < |docs| ensures Contains(Join(ContextSeparator, docs), docs[i]) {
      JoinHoldsParts(ContextSeparator, docs, i);
    }
  }
}
