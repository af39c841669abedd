/** The hosted vector database, seen only through the calls the application
    makes on it. Its state is a map from index name to the index's settings
    and stored vectors. A vector is kept as the namespace it was written to
    and the text it embeds; the embedding itself is not modelled. Every text
    written gets a fresh identifier, so the total vector count of an index is
    the length of its vector sequence. */
module VectorService {
  import opened Outcomes

  datatype Metric = Cosine | Euclidean | DotProduct

  /** Where a serverless index lives. */
  datatype ServerlessSpec = ServerlessSpec(cloud: string, region: string)

  datatype Vector = Vector(namespace: string, text: string)

  datatype IndexInfo = IndexInfo(dimension: nat, metric: Metric, spec: ServerlessSpec, vectors: seq<Vector>)

  /** A handle on a named index. */
  datatype IndexHandle = IndexHandle(name: string)

  /** A vector store bound to one namespace of one index. */
  datatype VectorStore = VectorStore(indexName: string, namespace: string)

  /** The one failure the model distinguishes: the named index does not exist. */
  datatype Error = NotFound(indexName: string)

  function TotalVectorCount(info: IndexInfo): nat {
    |info.vectors|
  }

  /** The vectors a text list becomes when it is written into one namespace. */
  function Tag(namespace: string, texts: seq<string>): (vs: seq<Vector>)
    ensures |vs| == |texts|
    ensures forall j :: 0 <= j < |texts| ==> vs[j] == Vector(namespace, texts[j])
  {
    seq(|texts|, j requires 0 <= j < |texts| => Vector(namespace, texts[j]))
  }

  /** The statistics query: the total vector count of the index, or an error
      when no index has that name. */
  function DescribeStats(indexes: map<string, IndexInfo>, name: string): (r: Result<nat, Error>)
    ensures r.Success? <==> name in indexes
    ensures r.Success? ==> r.value == TotalVectorCount(indexes[name])
  {
    if name in indexes then Success(TotalVectorCount(indexes[name])) else Failure(NotFound(name))
  }

  /** The indexes with the vectors of index `name` replaced. */
  function WithVectors(indexes: map<string, IndexInfo>, name: string, vectors: seq<Vector>): (r: map<string, IndexInfo>)
    requires name in indexes
    ensures r.Keys == indexes.Keys
    ensures r[name] == indexes[name].(vectors := vectors)
    ensures forall n :: n in indexes && n != name ==> r[n] == indexes[n]
  {
    indexes[name := indexes[name].(vectors := vectors)]
  }

  /** Replacing the vectors twice keeps only the second replacement. */
  lemma WithVectorsTwice(indexes: map<string, IndexInfo>, name: string, first: seq<Vector>, second: seq<Vector>)
    requires name in indexes
    ensures WithVectors(WithVectors(indexes, name, first), name, second) == WithVectors(indexes, name, second)
  {
  }

  class Service {
    var indexes: map<string, IndexInfo>

    constructor (indexes: map<string, IndexInfo>)
      ensures this.indexes == indexes
    {
      this.indexes := indexes;
    }

    function IndexNames(): (names: set<string>)
      reads this
      ensures names == indexes.Keys
    {
      indexes.Keys
    }

    /** Creates an empty index; the service refuses a name already in use, and
        the application never asks for one. */
    method CreateIndex(name: string, dimension: nat, metric: Metric, spec: ServerlessSpec)
      requires name !in indexes
      modifies this
      ensures indexes == old(indexes)[name := IndexInfo(dimension, metric, spec, [])]
    {
      indexes := indexes[name := IndexInfo(dimension, metric, spec, [])];
    }

    /** Embeds the texts and writes them into the namespace of an existing
        index, returning a store bound to that namespace. */
    method FromTexts(texts: seq<string>, indexName: string, namespace: string) returns (store: VectorStore)
      requires indexName in indexes
      modifies this
      ensures indexes == WithVectors(old(indexes), indexName, old(indexes)[indexName].vectors + Tag(namespace, texts))
      ensures store == VectorStore(indexName, namespace)
    {
      indexes := WithVectors(indexes, indexName, indexes[indexName].vectors + Tag(namespace, texts));
      store := VectorStore(indexName, namespace);
    }
  }

  /** Attaching to a namespace of an existing index writes nothing. */
  function FromExistingIndex(indexName: string, namespace: string): (store: VectorStore)
    ensures store.indexName == indexName && store.namespace == namespace
  {
    VectorStore(indexName, namespace)
  }
}
