/** The request handling of api.py: the process-wide session memory store and
    the decisions `chat` takes for one request. The agent's run is outside the
    model; its raw output, like the newly minted session id, is a parameter. */
module Api {
  import opened Outcomes
  import opened VectorService
  import opened Utils
  import opened CheckIndex
  import opened CreateTools

  /** A conversation memory that keeps the last `k` exchanges. Its history is
      written by the agent, which is not modelled. */
  class WindowMemory {
    const k: nat
    const returnMessages: bool
    const memoryKey: string

    constructor (k: nat, returnMessages: bool, memoryKey: string)
      ensures this.k == k && this.returnMessages == returnMessages && this.memoryKey == memoryKey
    {
      this.k := k;
      this.returnMessages := returnMessages;
      this.memoryKey := memoryKey;
    }
  }

  /** The JSON body of a chat reply and the session cookie set on it. */
  datatype ChatResponse = ChatResponse(input: string, output: string, sessionCookie: string)

  /** The request's session id: the `session_id` cookie when it is present
      and non-empty, otherwise the newly minted id. */
  function SessionId(cookie: Option<string>, minted: string): (id: string)
    ensures cookie.Some? && cookie.value != "" ==> id == cookie.value
    ensures cookie.None? || cookie.value == "" ==> id == minted
    ensures minted != "" ==> id != ""
  {
    if cookie.None? || cookie.value == "" then minted else cookie.value
  }

  /** Loading and chunking: one chunk list per PDF file, in file order. How a
      file is split is the splitter's business and a parameter here. */
  function MakeChunks(pdfFiles: seq<string>, chunker: string -> seq<string>): (chunks: seq<seq<string>>)
    ensures |chunks| == |pdfFiles|
    ensures forall i :: 0 <= i < |pdfFiles| ==> chunks[i] == chunker(pdfFiles[i])
  {
    seq(|pdfFiles|, i requires 0 <= i < |pdfFiles| => chunker(pdfFiles[i]))
  }

  /** What the ingest-or-skip part of `chat` leaves behind: the vector
      stores handed to the pipeline (None when nothing was ingested) and the
      service's indexes. */
  datatype Prepared = Prepared(stores: Option<seq<VectorStore>>, indexes: map<string, IndexInfo>)

  /** The ingest-or-skip part of `chat` on the service's indexes. A missing
      index makes the vector check fail. The index's total vector count
      decides: an index holding vectors gets no chunks, so nothing is written
      and the pipeline gets no stores; an empty index gets the chunks of
      every PDF file of the data directory, written when there is at least
      one file. `create_index` finds the index present and changes nothing. */
  function Prepare(indexes: map<string, IndexInfo>, indexName: string, listing: seq<DirEntry>,
                   chunker: string -> seq<string>): (r: Result<Prepared, Error>)
    ensures r.Failure? <==> indexName !in indexes
    ensures r.Failure? ==> r.error == NotFound(indexName)
    // only the named index's vectors can change
    ensures r.Success? ==> r.value.indexes.Keys == indexes.Keys
    ensures r.Success? ==> forall n :: n in indexes && n != indexName ==> r.value.indexes[n] == indexes[n]
    ensures r.Success? ==> r.value.indexes[indexName] == indexes[indexName].(vectors := r.value.indexes[indexName].vectors)
    ensures r.Success? && r.value.stores.Some? ==> |r.value.stores.value| == |PdfFiles(listing)| > 0
  {
    if indexName !in indexes then Failure(NotFound(indexName))
    else
      var files := PdfFiles(listing);
      var vectors := indexes[indexName].vectors;
      if |vectors| == 0 && files != [] then
        var ins := InsertOrAttach(indexName, vectors, files, MakeChunks(files, chunker));
        EmptyIndexIngests(indexName, vectors, files, MakeChunks(files, chunker));
        Success(Prepared(Some(ins.stores), WithVectors(indexes, indexName, ins.vectors)))
      else
        Success(Prepared(None, indexes))
  }

  /** An index that already holds vectors, or a data directory without PDF
      files: nothing is written and the pipeline gets no stores. */
  lemma PrepareSkips(indexes: map<string, IndexInfo>, indexName: string, listing: seq<DirEntry>, chunker: string -> seq<string>)
    requires indexName in indexes
    requires |indexes[indexName].vectors| > 0 || PdfFiles(listing) == []
    ensures Prepare(indexes, indexName, listing, chunker) == Success(Prepared(None, indexes))
  {
  }

  /** An empty index: there is one store per PDF file, bound to that file's
      namespace, and, when no two files share a namespace, each file's
      namespace afterwards holds exactly that file's chunks. */
  lemma {:induction false} PrepareIngestsEveryPdf(indexes: map<string, IndexInfo>, indexName: string, listing: seq<DirEntry>,
                                                chunker: string -> seq<string>, i: nat)
    requires indexName in indexes && |indexes[indexName].vectors| == 0
    requires NoDuplicates(Namespaces(PdfFiles(listing))) && i < |PdfFiles(listing)|
    ensures var r := Prepare(indexes, indexName, listing, chunker);
            var f := PdfFiles(listing)[i];
            && r.Success? && r.value.stores.Some?
            && r.value.stores.value[i] == VectorStore(indexName, Namespace(f))
            && NamespaceTexts(r.value.indexes[indexName].vectors, Namespace(f)) == chunker(f)
  {
    var files := PdfFiles(listing);
    var chunks := MakeChunks(files, chunker);
    EmptyIndexIngests(indexName, indexes[indexName].vectors, files, chunks);
    EmptyIndexNamespaceHoldsFileChunks(indexName, indexes[indexName].vectors, files, chunks, i);
  }

  /** A listing with distinct names, whose PDF files are all longer than
      ".pdf", meets the namespace hypothesis of `PrepareIngestsEveryPdf`. */
  lemma ListingNamespacesDistinct(listing: seq<DirEntry>)
    requires forall i, j :: 0 <= i < j < |listing| ==> listing[i].name != listing[j].name
    requires forall e :: e in listing && IsPdfEntry(e) ==> |e.name| > 4
    ensures NoDuplicates(Namespaces(PdfFiles(listing)))
  {
    var files := PdfFiles(listing);
    PdfFilesDistinct(listing);
    forall i | 0 <= i < |files|
      ensures |files[i]| > 4 && files[i][|files[i]| - 4..] == ".pdf"
    {
      assert files[i] in files;
    }
    DistinctPdfNamespaces(files);
  }

  /** Ingestion happens once: after a request has written some chunk, the
      next request finds vectors and writes nothing. */
  lemma {:induction false} PrepareIngestsOnce(indexes: map<string, IndexInfo>, indexName: string, listing: seq<DirEntry>,
                                            chunker: string -> seq<string>, i: nat)
    requires indexName in indexes && |indexes[indexName].vectors| == 0
    requires i < |PdfFiles(listing)| && |chunker(PdfFiles(listing)[i])| > 0
    ensures var first := Prepare(indexes, indexName, listing, chunker);
            && first.Success?
            && Prepare(first.value.indexes, indexName, listing, chunker) == Success(Prepared(None, first.value.indexes))
  {
    var files := PdfFiles(listing);
    var chunks := MakeChunks(files, chunker);
    EmptyIndexGainsVectors(indexName, indexes[indexName].vectors, files, chunks, i);
  }

  /** The tools a request's agent gets: the Wikipedia tool alone when
      nothing was ingested; after ingesting the PDF files of an empty index,
      first the PDF search tool over the first file's namespace. */
  lemma RequestTools(indexes: map<string, IndexInfo>, indexName: string, listing: seq<DirEntry>, chunker: string -> seq<string>)
    requires indexName in indexes
    ensures var p := Prepare(indexes, indexName, listing, chunker);
            && p.Success?
            && ((|indexes[indexName].vectors| > 0 || PdfFiles(listing) == []) ==> ToolList(p.value.stores) == [CreateWiki()])
            && ((|indexes[indexName].vectors| == 0 && PdfFiles(listing) != []) ==>
                  ToolList(p.value.stores) == [PdfTool(VectorStore(indexName, Namespace(PdfFiles(listing)[0]))), CreateWiki()])
  {
    var files := PdfFiles(listing);
    if |indexes[indexName].vectors| == 0 && files != [] {
      EmptyIndexIngests(indexName, indexes[indexName].vectors, files, MakeChunks(files, chunker));
    }
  }

  /** The end of `chat`: the pipeline is built over the stores, and the
      reply echoes the query, carries the answer extracted from the agent's
      output and sets the session cookie. */
  method Respond(query: string, sessionId: string, vectorstores: Option<seq<VectorStore>>, agentOutput: string)
    returns (reply: ChatResponse, tools: seq<Tool>)
    ensures reply == ChatResponse(query, ExtractAnswer(agentOutput), sessionId)
    ensures IsStripped(reply.output)
    ensures tools == ToolList(vectorstores)
  {
    tools := PipelineTools(vectorstores);
    var output := ExtractAnswer(agentOutput);
    reply := ChatResponse(query, output, sessionId);
  }

  /** The running application: its configuration, the hosted vector service
      it talks to, and the session memory store shared by all requests. */
  class App {
    var memoryStore: map<string, WindowMemory>
    const pc: Service
    const indexName: string
    const cloud: string
    const region: string

    constructor (pc: Service, indexName: string, cloud: string, region: string)
      ensures memoryStore == map[]
      ensures this.pc == pc && this.indexName == indexName && this.cloud == cloud && this.region == region
    {
      memoryStore := map[];
      this.pc := pc;
      this.indexName := indexName;
      this.cloud := cloud;
      this.region := region;
    }

    /** `get_memory`: the session's memory, created with a window of three
        exchanges on the session's first request. An existing entry is
        returned as it is and the store is left alone; a new one is added
        under exactly that id and nothing else changes. */
    method GetMemory(sessionId: string) returns (memory: WindowMemory)
      modifies this
      ensures sessionId in old(memoryStore) ==> memory == old(memoryStore)[sessionId] && memoryStore == old(memoryStore)
      ensures sessionId !in old(memoryStore) ==>
                && fresh(memory) && memory.k == 3 && memory.returnMessages && memory.memoryKey == "chat_history"
                && memoryStore == old(memoryStore)[sessionId := memory]
    {
      if sessionId !in memoryStore {
        var created := new WindowMemory(3, true, "chat_history");
        memoryStore := memoryStore[sessionId := created];
      }
      memory := memoryStore[sessionId];
    }

    /** The ingest-or-skip part of `chat`, against the hosted service. */
    method PrepareVectorStores(listing: seq<DirEntry>, chunker: string -> seq<string>)
      returns (r: Result<Option<seq<VectorStore>>, Error>)
      modifies pc
      ensures var p := Prepare(old(pc.indexes), indexName, listing, chunker);
              && (p.Failure? ==> r == Failure(p.error) && pc.indexes == old(pc.indexes))
              && (p.Success? ==> r == Success(p.value.stores) && pc.indexes == p.value.indexes)
    {
      var indexManager := new IndexManager(indexName, cloud, region, pc);
      var exist := VectorExist(pc.indexes, indexManager.indexName);
      if exist.Failure? {
        return Failure(exist.error);
      }

      var pdfFiles: seq<string>;
      var chunks: seq<seq<string>>;
      if !exist.value {
        pdfFiles := GetPaths(listing);
        chunks := MakeChunks(pdfFiles, chunker);
      } else {
        pdfFiles := GetPaths(listing);
        chunks := [];
      }

      var index := indexManager.CreateIndex();

      var vectorstores: Option<seq<VectorStore>>;
      if chunks != [] {
        var inserted := indexManager.InsertDocuments(pdfFiles, chunks);
        vectorstores := Some(inserted.value);
      } else {
        vectorstores := None;
      }
      r := Success(vectorstores);
    }

    /** `chat` for one request: the session id is resolved and its memory
        fetched, the vector stores prepared, the tools assembled from them,
        and the reply echoes the query and carries the answer extracted from
        the agent's output. A missing index fails the request. */
    method Chat(query: string, cookie: Option<string>, mintedId: string, listing: seq<DirEntry>,
                chunker: string -> seq<string>, agentOutput: string)
      returns (response: Result<ChatResponse, Error>, memory: WindowMemory, vectorstores: Option<seq<VectorStore>>, tools: seq<Tool>)
      modifies this, pc
      // the session and its memory
      ensures var id := SessionId(cookie, mintedId);
              && (id in old(memoryStore) ==> memory == old(memoryStore)[id] && memoryStore == old(memoryStore))
              && (id !in old(memoryStore) ==> fresh(memory) && memory.k == 3 && memoryStore == old(memoryStore)[id := memory])
      // the stores, the service and the reply
      ensures var p := Prepare(old(pc.indexes), indexName, listing, chunker);
              && (p.Failure? ==> response == Failure(p.error) && pc.indexes == old(pc.indexes) && vectorstores.None? && tools == [])
              && (p.Success? ==>
                    && response == Success(ChatResponse(query, ExtractAnswer(agentOutput), SessionId(cookie, mintedId)))
                    && vectorstores == p.value.stores && pc.indexes == p.value.indexes
                    && tools == ToolList(vectorstores))
    {
      var sessionId := SessionId(cookie, mintedId);
      memory := GetMemory(sessionId);
      vectorstores := None;
      tools := [];

      var prepared := PrepareVectorStores(listing, chunker);
      if prepared.Failure? {
        response := Failure(prepared.error);
      } else {
        vectorstores := prepared.value;
        var reply;
        reply, tools := Respond(query, sessionId, vectorstores, agentOutput);
        response := Success(reply);
      }
    }
  }

  /** A second request carrying the session cookie of the first gets the
      same memory object; over both requests the store gains at most the
      first request's minted id. */
  method SessionContinuity(app: App, listing: seq<DirEntry>, chunker: string -> seq<string>, mintedId: string, nextId: string,
                           first: string, second: string, firstOutput: string, secondOutput: string)
      returns (memory1: WindowMemory, memory2: WindowMemory)
    requires app.indexName in app.pc.indexes && mintedId != ""
    modifies app, app.pc
    ensures memory1 == memory2
    ensures SessionId(None, mintedId) in app.memoryStore
    ensures app.memoryStore.Keys == old(app.memoryStore).Keys + {mintedId}
  {
    var reply1, vs1, tools1;
    reply1, memory1, vs1, tools1 := app.Chat(first, None, mintedId, listing, chunker, firstOutput);
    var cookie := reply1.value.sessionCookie;
    var reply2, vs2, tools2;
    reply2, memory2, vs2, tools2 := app.Chat(second, Some(cookie), nextId, listing, chunker, secondOutput);
  }
}
