# RasoiGuru: the deterministic core of the cooking-assistant chat service

RasoiGuru answers cooking questions through an LLM agent with two kinds of
search tools. The first kind searches PDF cookbooks stored in a Pinecone
vector index. The second is a Wikipedia lookup. Most of the repository is glue
around hosted services. This project models, and proves properties of, the
decisions the repository makes itself:

- `extract_answer` (module `Utils`). It takes the agent's transcript, finds
  the first `"Final Answer:"` and returns the stripped text after it, or `""`
  when the marker is missing. `str.find` and `str.strip` are modelled as
  functions. Strip uses the fixed whitespace set of Python's `str.isspace`.
- `vector_exist` and `get_paths` (module `Utils`). `vector_exist` reads an
  index's total vector count. `get_paths` filters a directory listing down to
  the files ending in `.pdf`. The listing is a sequence of
  `(name, isFile)` entries.
- `IndexManager` (module `CheckIndex`).
  - `create_index` creates the index only when the name is missing.
  - `insert_documents` derives one namespace `"ns" + stem` per file. It makes
    one index-wide decision. An empty index gets each file's chunks written
    into that file's namespace. An index that already holds vectors gets a
    store attached per namespace.
  - The Pinecone service is abstract state: a map from index name to the
    index's settings and its sequence of `(namespace, text)` vectors (module
    `VectorService`). The total vector count is the length of that sequence.
- `ToolCreator` (module `CreateTools`). `create_retriever` builds one
  retriever per vector store. `make_tools` zips one-entry name and
  description lists with the retrievers and appends the Wikipedia tool. The
  pipeline's `tool_creator.create_retriever(vectorstores) if vectorstores else []`
  is modelled too.
- The request handling of `api.py` (module `Api`):
  - the process-wide session memory store and its get-or-create;
  - the session id choice;
  - the ingest-or-skip decision;
  - the tool list handed to the agent;
  - the shape of the reply.

  The ingest-or-skip part is specified by the function `Api.Prepare`. The
  method `Api.App.PrepareVectorStores` runs the same steps against the service
  object and is proved to agree with it.

The imperative parts are written as methods:
- `get_paths`, `create_retriever`, `make_tools` and the loops of
  `insert_documents` are loops with invariants. `get_paths` and both loops of
  `insert_documents` are proved equal to specification functions (`PdfFiles`,
  `Stores`, `Upserted`); `create_retriever` and `make_tools` have ensures that
  give every element of their result.
- The memory store is a `map` field of the `App` class.
- The index map is a field of the `Service` class, which `IndexManager`
  changes through its `create_index` and `from_texts` calls.

Some inputs are parameters:
- the agent's raw output;
- the freshly minted session id;
- the directory listing;
- the PDF loader and splitter, given as one function from a file to its
  chunk list.

A missing index: `vector_exist` (src/utils.py:63-75) asks the service for the
index's statistics, the service raises for an index it does not hold, and the
`except` re-raises. The model returns a `NotFound` failure there, so `chat`
fails at api.py:67, before it reaches `create_index` at api.py:77. A fresh
service with no index is therefore never set up by `chat`.

## Model

| member | source | states |
|---|---|---|
| `Utils.Find` | src/utils.py:29 | `str.find`: -1 exactly when the pattern occurs nowhere, otherwise the first index where it occurs |
| `Utils.Strip` | src/utils.py:32 | `str.strip`: the result starts and ends with non-whitespace, and it sits inside the input with only whitespace before and after it |
| `Utils.StripOfPadded` | src/utils.py:32 | a stripped text padded with whitespace on both sides strips back to itself |
| `Utils.StripIdempotent` | src/utils.py:32 | stripping twice equals stripping once |
| `Utils.ExtractAnswer` | src/utils.py:9-41 | the answer never starts or ends with whitespace and is no longer than the transcript |
| `Utils.ExtractAnswerWithoutMarker` | src/utils.py:28-34 | no `"Final Answer:"` in the transcript gives `""` |
| `Utils.ExtractAnswerAtFirstMarker` | src/utils.py:29-32 | with the marker first occurring at `k`, the answer is the stripped text from `k + 13` on |
| `Utils.ExtractAnswerIsInfix` | src/utils.py:31-32 | when the marker occurs, the answer is a contiguous piece of the transcript and its length is at most the transcript's minus 13 |
| `Utils.ExtractAnswerAfterFirstMarker` | src/utils.py:29-32 | for text without the marker, then the marker, then anything (later markers included), the answer is the stripped text after that first marker |
| `Utils.ExtractAnswerOfPaddedAnswer` | src/utils.py:29-32 | an answer surrounded by whitespace after the first marker comes back without that whitespace |
| `Utils.ExtractAnswerExample` | src/utils.py:9-41 | `"...blah Final Answer: The soup needs salt."` yields `"The soup needs salt."` |
| `Utils.VectorExist` | src/utils.py:44-75 | fails exactly when the index is missing; otherwise true exactly when the total vector count is not zero |
| `Utils.PdfFiles` | src/utils.py:106-112 | a name is kept exactly when some listing entry with that name is a file whose name ends with `.pdf` |
| `Utils.PdfFilesKeepListingOrder` | src/utils.py:106-112 | the kept names are a subsequence of the listing's names, in listing order |
| `Utils.PdfFilesCount` | src/utils.py:106-112 | the result has one name per PDF entry of the listing, counting repeated names once per entry |
| `Utils.PdfFilesDistinct` | src/utils.py:106-112 | a listing with distinct names gives PDF file names that are pairwise distinct |
| `Utils.UpperCaseExtensionExcluded` | src/utils.py:108 | the suffix match is case-sensitive: of the files `menu.PDF` and `dal.pdf` and the directory `old.pdf`, only `dal.pdf` is kept |
| `Utils.GetPaths` | src/utils.py:78-116 | the loop returns exactly the filtered listing |
| `VectorService.DescribeStats` | src/utils.py:66 | the statistics query succeeds exactly for an existing index and reports its total vector count |
| `VectorService.WithVectors` | src/RasoiGuru/components/check_index.py:84-89 | replacing one index's vectors keeps the set of index names, that index's dimension, metric and spec, and every other index |
| `VectorService.Service.IndexNames` | src/RasoiGuru/components/check_index.py:43 | the listed names are exactly the indexes the service holds |
| `VectorService.Service.CreateIndex` | src/RasoiGuru/components/check_index.py:45-50 | adds exactly the named empty index with the given settings |
| `VectorService.Service.FromTexts` | src/RasoiGuru/components/check_index.py:84-89 | appends one vector per text to the index, tagged with the namespace, and returns a store bound to that namespace |
| `VectorService.FromExistingIndex` | src/RasoiGuru/components/check_index.py:94 | the store is bound to the given index and namespace |
| `CheckIndex.RFind` | src/RasoiGuru/components/check_index.py:77 | `str.rfind`: the last index holding the character, or -1 when there is none |
| `CheckIndex.Stem` | src/RasoiGuru/components/check_index.py:77 | the stem differs from the name exactly when the name has a last dot that is neither its first nor its last character; the stem is then the part before that dot |
| `CheckIndex.Namespace` | src/RasoiGuru/components/check_index.py:77 | every namespace begins with `"ns"` |
| `CheckIndex.NamespaceOfPdf` | src/RasoiGuru/components/check_index.py:77 | a name ending in `.pdf` gets namespace `"ns"` plus the name without `.pdf`; a file named just `.pdf` gets `"ns.pdf"` |
| `CheckIndex.Namespaces` | src/RasoiGuru/components/check_index.py:77 | one namespace per file, in file order |
| `CheckIndex.DistinctPdfNamespaces` | src/RasoiGuru/components/check_index.py:77 | distinct PDF names, each longer than `.pdf`, give pairwise distinct namespaces |
| `CheckIndex.DistinctPdfNamespace` | src/RasoiGuru/components/check_index.py:77 | two different PDF names, each longer than `.pdf`, get different namespaces |
| `CheckIndex.BarePdfNamespaceShared` | src/RasoiGuru/components/check_index.py:77 | a file named `.pdf` and one named `.pdf.pdf` share the namespace `ns.pdf` |
| `CheckIndex.UpsertedCount` | src/RasoiGuru/components/check_index.py:83-90 | the number of vectors written is the sum of the chunk-list lengths |
| `CheckIndex.UpsertedIntoOwnNamespace` | src/RasoiGuru/components/check_index.py:83-90 | with distinct namespaces, each namespace receives exactly its own chunk list and a namespace of no file receives nothing |
| `CheckIndex.EmptyIndexIngests` | src/RasoiGuru/components/check_index.py:82-90 | empty index: `min(files, contents)` stores, the i-th bound to the i-th file's namespace; the vector count grows by the written chunks |
| `CheckIndex.EmptyIndexNamespaceHoldsFileChunks` | src/RasoiGuru/components/check_index.py:83-90 | empty index, distinct namespaces: afterwards each file's namespace holds exactly that file's chunks |
| `CheckIndex.EmptyIndexGainsVectors` | src/RasoiGuru/components/check_index.py:82-90 | empty index with one non-empty paired chunk list: afterwards the index holds vectors |
| `CheckIndex.NonEmptyIndexAttaches` | src/RasoiGuru/components/check_index.py:92-95 | non-empty index: nothing is written, one store per file in file order, and the contents are ignored |
| `CheckIndex.PartialIndexNotRepaired` | src/RasoiGuru/components/check_index.py:82 | the decision is index-wide: an empty namespace stays empty when the index holds any vector |
| `CheckIndex.WithIndex` | src/RasoiGuru/components/check_index.py:43-50 | the name is afterwards present; existing indexes are unchanged; a missing one is added empty with dimension 4096 and cosine metric |
| `CheckIndex.WithIndexIdempotent` | src/RasoiGuru/components/check_index.py:43-50 | creating twice equals creating once, and at most one index is added |
| `CheckIndex.IndexManager.constructor` | src/RasoiGuru/components/check_index.py:16-30 | keeps the index name, cloud, region and service client it is given |
| `CheckIndex.IndexManager.CreateIndex` | src/RasoiGuru/components/check_index.py:32-60 | the service's indexes become `WithIndex` of the old ones; the handle names the index, which is present |
| `CheckIndex.InsertOrAttach` | src/RasoiGuru/components/check_index.py:82-95 | stored vectors are only appended to; an index already holding vectors gets no new ones and one store per file; an empty one gets `min(files, contents)` stores |
| `CheckIndex.IndexManager.InsertDocuments` | src/RasoiGuru/components/check_index.py:62-102 | a missing index fails with the state unchanged; otherwise the stores and the index's new vectors are those of `InsertOrAttach` on the old vector count |
| `CheckIndex.IndexManager.UpsertEach` | src/RasoiGuru/components/check_index.py:83-90 | the zip loop: `min(ns, contents)` stores in order, and the index gains the written vectors |
| `CheckIndex.IndexManager.AttachEach` | src/RasoiGuru/components/check_index.py:93-95 | one store per namespace, in order, bound to this index: exactly `Stores` of the namespaces |
| `CreateTools.AsRetriever` | src/RasoiGuru/components/create_tools.py:30 | the retriever searches the given store |
| `CreateTools.CreateRetriever` | src/RasoiGuru/components/create_tools.py:14-36 | one retriever per store, the i-th over the i-th store |
| `CreateTools.CreateWiki` | src/RasoiGuru/components/create_tools.py:38-65 | the tool is named `Wikipedia` and looks up one result of at most 500 characters, without extra metadata |
| `CreateTools.PdfTool` | src/RasoiGuru/components/create_tools.py:82-91 | the PDF tool over a store carries the one name, the one description and the document prompt `"Search the query"` |
| `CreateTools.MakeTools` | src/RasoiGuru/components/create_tools.py:67-99 | `min(1, retrievers) + 1` tools; the last is the Wikipedia tool passed in; with a retriever, the first is `BHM-401T_pdf_search` over the first retriever |
| `CreateTools.PipelineRetrievers` | src/RasoiGuru/pipeline/pipeline.py:18 | no retrievers for None or an empty list; otherwise one per store, in order |
| `CreateTools.ToolList` | src/RasoiGuru/pipeline/pipeline.py:18-20 | one or two tools with Wikipedia last; two exactly when stores were given, the first being the PDF tool over the first store |
| `CreateTools.PipelineTools` | src/RasoiGuru/pipeline/pipeline.py:17-20 | the retriever, wiki and `make_tools` steps together give `ToolList` |
| `Api.SessionId` | api.py:58-60 | a non-empty cookie is reused; a missing or empty one is replaced by the minted id |
| `Api.MakeChunks` | api.py:68-70 | one chunk list per PDF file, in file order |
| `Api.Prepare` | api.py:64-83 | fails exactly for a missing index; otherwise no index is added or removed, other indexes are untouched, the named index keeps its dimension, metric and spec, and stores, when handed on, number one per PDF file |
| `Api.PrepareSkips` | api.py:67-83 | an index holding vectors, or no PDF files: nothing is written and no stores are handed on |
| `Api.PrepareIngestsEveryPdf` | api.py:67-83 | an empty index: the i-th store is bound to the i-th PDF file's namespace, and with distinct namespaces that namespace then holds exactly that file's chunks |
| `Api.ListingNamespacesDistinct` | src/RasoiGuru/components/check_index.py:77 | a listing with distinct names whose PDF files are longer than `.pdf` gives distinct namespaces, as `PrepareIngestsEveryPdf` requires |
| `Api.PrepareIngestsOnce` | api.py:66-83 | after a request has written a chunk, the next request writes nothing and hands on no stores |
| `Api.RequestTools` | api.py:86 | Wikipedia alone when nothing was ingested; after ingesting, the PDF tool over the first file's namespace comes first |
| `Api.Respond` | api.py:86-96 | the reply echoes the query, carries the extracted answer (stripped) and the session id, and the tools are `ToolList` of the stores |
| `Api.App.constructor` | api.py:23-38 | the memory store starts empty; the service client, index name, cloud and region are the ones given |
| `Api.WindowMemory.constructor` | api.py:50 | the memory keeps the window size, message mode and memory key it is built with (`k=3`, `return_messages=True`, `"chat_history"` in `get_memory`) |
| `Api.App.GetMemory` | api.py:48-51 | an existing entry is returned and the store is unchanged; a missing id gets a fresh window-3 memory under exactly that key |
| `Api.App.PrepareVectorStores` | api.py:64-83 | the vector check, `create_index` and `insert_documents` against the service give exactly what `Prepare` says |
| `Api.App.Chat` | api.py:55-96 | the memory store only gains the session's entry; a missing index fails with the service unchanged; otherwise the stores, the service, the tools and the reply are those of `Prepare`, `ToolList` and `ExtractAnswer` |
| `Api.SessionContinuity` | api.py:48-60 | a second request carrying the first reply's cookie gets the same memory object; over both requests the store's keys become the old keys plus the first request's minted id |

## Left out

- Loading and splitting the PDFs (`PyPDFLoader`, `RecursiveCharacterTextSplitter`, in src/RasoiGuru/components/data_ingestion.py). That is library code; the model takes one function from a file to its chunk list.
- The agent (src/RasoiGuru/components/generation.py): the prompt, the Groq LLM and LangChain's executor loop. The agent's output is a parameter. The memory's conversation history is written by the agent and is not modelled; a memory is an object with its settings.
- Embeddings, the Cohere client, the Wikipedia API and the network. A vector is kept as its namespace and text.
- Service failures other than a missing index, and `CustomException` formatting (src/exception.py). A missing index is the one failure modelled.
- `time.sleep`, `uuid.uuid4` (the minted id is a parameter), `load_dotenv`, the YAML configuration, FastAPI routing, cookie I/O and logging.
- Concurrency between requests: the check-then-create race on the index and shared access to the memory store. One request runs at a time.
- `str(result)` on the agent's dictionary output. `extract_answer` takes a string.
- `Utils.Strip`: whitespace is the fixed set of characters Python's `str.isspace` accepts. There is no Unicode database behind it.
- `CheckIndex.Stem`: the suffix starts at the last dot unless that dot opens or ends the name, in which case the whole name is the stem. Directory parts of a path are not modelled: a path is its file name, because only the stem is used.
- `CheckIndex.IndexManager.constructor`: the client is a parameter. `__init__` builds its own `Pinecone()` client (check_index.py:30) and `chat` builds a second one for `vector_exist` (api.py:66); the model uses one `Service` object for both, as both reach the same account.
- `CreateTools.CreateWiki`: the tool's callable is not modelled; its lookup settings are. The descriptions are named values (`Description`) whose text is spelt out by `Description.Text`.
