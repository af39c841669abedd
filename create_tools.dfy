/** Tool assembly of src/RasoiGuru/components/create_tools.py: one retriever
    per vector store, at most one PDF search tool (the name and description
    lists hold one entry each and `zip` stops at the shortest list), and the
    Wikipedia tool always last. */
module CreateTools {
  import opened Outcomes
  import opened VectorService

  /** A retriever over one vector store. */
  datatype Retriever = Retriever(store: VectorStore)

  /** The settings of the Wikipedia lookup behind the Wikipedia tool. */
  datatype WikipediaSettings = WikipediaSettings(topKResults: nat, loadAllAvailableMeta: bool, docContentCharsMax: nat)

  /** The fixed descriptions the agent reads to choose a tool. Tools carry
      the name of their description; `Text` spells it out. */
  datatype Description = PdfSearchDescription | WikipediaDescription {
    function Text(): string {
      match this
      case PdfSearchDescription => "Indian food cooking and heritage related information use this tool"
      case WikipediaDescription => "look up things in wikipedia for knowing about food recipes, cooking instructions and their history"
    }
  }

  datatype Tool =
    | RetrieverTool(name: string, description: Description, retriever: Retriever, documentPrompt: string)
    | FunctionTool(name: string, description: Description, lookup: WikipediaSettings)

  const PdfToolNames: seq<string> := ["BHM-401T_pdf_search"]
  const PdfToolDescriptions: seq<Description> := [PdfSearchDescription]
  const PdfDocumentPrompt: string := "Search the query"

  /** The one PDF search tool `make_tools` can build, over a given store. */
  function PdfTool(store: VectorStore): (tool: Tool)
    ensures tool.RetrieverTool? && tool.retriever.store == store
    ensures tool.name == PdfToolNames[0] && tool.description == PdfToolDescriptions[0] && tool.documentPrompt == PdfDocumentPrompt
  {
    RetrieverTool(PdfToolNames[0], PdfToolDescriptions[0], Retriever(store), PdfDocumentPrompt)
  }

  /** `vectorstore.as_retriever()`. */
  function AsRetriever(store: VectorStore): (r: Retriever)
    ensures r.store == store
  {
    Retriever(store)
  }

  /** `create_retriever`: one retriever per vector store, in store order. */
  method CreateRetriever(vectorstores: seq<VectorStore>) returns (retrievers: seq<Retriever>)
    ensures |retrievers| == |vectorstores|
    ensures forall i :: 0 <= i < |vectorstores| ==> retrievers[i].store == vectorstores[i]
  {
    retrievers := [];
    for i := 0 to |vectorstores|
      invariant |retrievers| == i
      invariant forall j :: 0 <= j < i ==> retrievers[j] == AsRetriever(vectorstores[j])
    {
      var retriever := AsRetriever(vectorstores[i]);
      retrievers := retrievers + [retriever];
    }
  }

  /** `create_wiki`: the Wikipedia tool, returning at most one result of at
      most 500 characters per query. */
  function CreateWiki(): (tool: Tool)
    ensures tool.FunctionTool? && tool.name == "Wikipedia"
    ensures tool.lookup.topKResults == 1 && tool.lookup.docContentCharsMax == 500 && !tool.lookup.loadAllAvailableMeta
  {
    FunctionTool(
      "Wikipedia",
      WikipediaDescription,
      WikipediaSettings(1, false, 500))
  }

  /** `make_tools`: a PDF search tool for each (name, description,
      retriever) triple of the zip, then the Wikipedia tool. With one name
      and one description there is a PDF tool exactly when a retriever was
      given; it wraps the first retriever, and the others are dropped. */
  method MakeTools(wikiTool: Tool, retrievers: seq<Retriever>) returns (tools: seq<Tool>)
    ensures |tools| == Min(1, |retrievers|) + 1
    ensures tools[|tools| - 1] == wikiTool
    ensures |retrievers| > 0 ==> tools[0] == RetrieverTool("BHM-401T_pdf_search", PdfToolDescriptions[0], retrievers[0], PdfDocumentPrompt)
  {
    var toolsName := PdfToolNames;
    var toolsDesc := PdfToolDescriptions;
    tools := [];
    var i := 0;
    while i < |toolsName| && i < |toolsDesc| && i < |retrievers|
      invariant 0 <= i <= |toolsName| && i <= |toolsDesc| && i <= |retrievers|
      invariant |tools| == i
      invariant forall j :: 0 <= j < i ==> tools[j] == RetrieverTool(toolsName[j], toolsDesc[j], retrievers[j], PdfDocumentPrompt)
    {
      var pdfTool := RetrieverTool(toolsName[i], toolsDesc[i], retrievers[i], PdfDocumentPrompt);
      tools := tools + [pdfTool];
      i := i + 1;
    }
    tools := tools + [wikiTool];
  }

  /** The retrievers `create_pipeline` builds: none when it is handed no
      vector stores (None or an empty list). */
  method PipelineRetrievers(vectorstores: Option<seq<VectorStore>>) returns (retrievers: seq<Retriever>)
    ensures vectorstores.None? || vectorstores.value == [] ==> retrievers == []
    ensures vectorstores.Some? ==> |retrievers| == |vectorstores.value|
    ensures vectorstores.Some? ==> forall i :: 0 <= i < |retrievers| ==> retrievers[i].store == vectorstores.value[i]
  {
    if vectorstores.Some? && vectorstores.value != [] {
      retrievers := CreateRetriever(vectorstores.value);
    } else {
      retrievers := [];
    }
  }

  /** The tool list of one pipeline: the Wikipedia tool, preceded by the PDF
      tool over the first store when there is at least one store. */
  function ToolList(vectorstores: Option<seq<VectorStore>>): (tools: seq<Tool>)
    ensures 1 <= |tools| <= 2 && tools[|tools| - 1] == CreateWiki()
    ensures |tools| == 2 <==> vectorstores.Some? && vectorstores.value != []
    ensures |tools| == 2 ==> tools[0] == PdfTool(vectorstores.value[0])
  {
    if vectorstores.Some? && vectorstores.value != [] then [PdfTool(vectorstores.value[0]), CreateWiki()] else [CreateWiki()]
  }

  /** `create_pipeline`'s tool assembly: retrievers from the stores, the
      Wikipedia tool, and `make_tools` over both. Only the first store is
      ever searched. */
  method PipelineTools(vectorstores: Option<seq<VectorStore>>) returns (tools: seq<Tool>)
    ensures tools == ToolList(vectorstores)
  {
    var retrievers := PipelineRetrievers(vectorstores);
    var wikiTool := CreateWiki();
    tools := MakeTools(wikiTool, retrievers);
  }
}
