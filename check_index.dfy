/** The index lifecycle of src/RasoiGuru/components/check_index.py: create the
    index when it is missing, then either write every file's chunks into the
    file's own namespace (empty index) or attach a store to each file's
    namespace (index already holding vectors). */
module CheckIndex {
  import opened Outcomes
  import opened VectorService

  /** Every index this application creates has this many dimensions ... */
  const Dimension: nat := 4096
  /** ... and compares vectors by this metric. */
  const IndexMetric: Metric := Cosine

  // ---------------------------------------------------------------------
  // Namespaces
  // ---------------------------------------------------------------------

  /** `s.rfind(c)`: the highest index holding `c`, or -1. */
  function RFind(s: string, c: char): (r: int)
    ensures -1 <= r < |s|
    ensures r >= 0 ==> s[r] == c
    ensures forall j :: r < j < |s| ==> s[j] != c
  {
    if s == [] then -1
    else if s[|s| - 1] == c then |s| - 1
    else RFind(s[..|s| - 1], c)
  }

  /** `Path(name).stem`: the name without its last suffix. The suffix starts
      at the last dot, provided that dot neither opens nor ends the name. */
  function Stem(name: string): (stem: string)
    ensures |stem| <= |name| && stem == name[..|stem|]
    ensures stem != name ==>
              && 0 < |stem| < |name| - 1
              && name[|stem|] == '.'
              && forall j :: |stem| < j < |name| ==> name[j] != '.'
    ensures stem != name <==> exists i :: 0 < i < |name| - 1 && name[i] == '.' && forall j :: i < j < |name| ==> name[j] != '.'
  {
    var i := RFind(name, '.');
    if 0 < i < |name| - 1 then name[..i] else name
  }

  /** The namespace a file's vectors live in. */
  function Namespace(fileName: string): (ns: string)
    ensures |ns| >= 2 && ns[..2] == "ns"
  {
    "ns" + Stem(fileName)
  }

  /** A PDF file's namespace is "ns" and its name without ".pdf"; the one
      exception is a file named just ".pdf", whose only dot opens the name. */
  lemma NamespaceOfPdf(fileName: string)
    requires |fileName| >= 4 && fileName[|fileName| - 4..] == ".pdf"
    ensures |fileName| > 4 ==> Namespace(fileName) == "ns" + fileName[..|fileName| - 4]
    ensures |fileName| == 4 ==> Namespace(fileName) == "ns.pdf"
  {
    var n := |fileName|;
    assert fileName[n - 4] == '.' && fileName[n - 3] == 'p' && fileName[n - 2] == 'd' && fileName[n - 1] == 'f' by {
      assert fileName[n - 4..][0] == '.' && fileName[n - 4..][1] == 'p';
      assert fileName[n - 4..][2] == 'd' && fileName[n - 4..][3] == 'f';
    }
    var i := RFind(fileName, '.');
    assert i == n - 4;
    if n == 4 {
      assert fileName == ".pdf";
    }
  }

  /** Distinct PDF names, each longer than ".pdf", get distinct namespaces. */
  lemma DistinctPdfNamespaces(pdfFiles: seq<string>)
    requires forall i :: 0 <= i < |pdfFiles| ==> |pdfFiles[i]| > 4 && pdfFiles[i][|pdfFiles[i]| - 4..] == ".pdf"
    requires forall i, j :: 0 <= i < j < |pdfFiles| ==> pdfFiles[i] != pdfFiles[j]
    ensures NoDuplicates(Namespaces(pdfFiles))
  {
    var nss := Namespaces(pdfFiles);
    forall i, j | 0 <= i < j < |nss|
      ensures nss[i] != nss[j]
    {
      DistinctPdfNamespace(pdfFiles[i], pdfFiles[j]);
    }
  }

  lemma DistinctPdfNamespace(a: string, b: string)
    requires |a| > 4 && a[|a| - 4..] == ".pdf"
    requires |b| > 4 && b[|b| - 4..] == ".pdf"
    requires a != b
    ensures Namespace(a) != Namespace(b)
  {
    NamespaceOfPdf(a);
    NamespaceOfPdf(b);
    HeadsDiffer(a, b, 4);
    PrependKeepsDifference("ns", a[..|a| - 4], b[..|b| - 4]);
  }

  /** A file named just ".pdf" shares its namespace with ".pdf.pdf": the
      length bound of `DistinctPdfNamespaces` is needed. */
  lemma BarePdfNamespaceShared(bare: string, doubled: string)
    requires bare == ".pdf" && doubled == ".pdf.pdf"
    ensures Namespace(bare) == Namespace(doubled) == "ns.pdf"
  {
    NamespaceOfPdf(bare);
    NamespaceOfPdf(doubled);
    assert doubled[..|doubled| - 4] == bare;
  }

  /** Two different strings with the same last `k` characters differ before them. */
  lemma HeadsDiffer(a: string, b: string, k: nat)
    requires k <= |a| && k <= |b| && a[|a| - k..] == b[|b| - k..] && a != b
    ensures a[..|a| - k] != b[..|b| - k]
  {
    assert a == a[..|a| - k] + a[|a| - k..];
    assert b == b[..|b| - k] + b[|b| - k..];
  }

  lemma PrependKeepsDifference(p: string, x: string, y: string)
    requires x != y
    ensures p + x != p + y
  {
    assert (p + x)[|p|..] == x && (p + y)[|p|..] == y;
  }

  /** `["ns" + path.stem for path in pdf_files]`. */
  function Namespaces(pdfFiles: seq<string>): (nss: seq<string>)
    ensures |nss| == |pdfFiles|
    ensures forall i :: 0 <= i < |pdfFiles| ==> nss[i] == Namespace(pdfFiles[i])
  {
    seq(|pdfFiles|, i requires 0 <= i < |pdfFiles| => Namespace(pdfFiles[i]))
  }

  // ---------------------------------------------------------------------
  // What an insertion writes
  // ---------------------------------------------------------------------

  /** The texts of the vectors stored under namespace `ns`, in write order. */
  function NamespaceTexts(vectors: seq<Vector>, ns: string): (texts: seq<string>)
    ensures |texts| <= |vectors|
  {
    if vectors == [] then []
    else
      var last := vectors[|vectors| - 1];
      NamespaceTexts(vectors[..|vectors| - 1], ns) + (if last.namespace == ns then [last.text] else [])
  }

  /** The total length of a list of chunk lists. */
  function SumLengths(contents: seq<seq<string>>): nat {
    if contents == [] then 0 else SumLengths(contents[..|contents| - 1]) + |contents[|contents| - 1]|
  }

  /** The vectors written when the i-th chunk list goes into the i-th
      namespace, one list after the other. */
  function Upserted(nss: seq<string>, contents: seq<seq<string>>): (vs: seq<Vector>)
    requires |nss| == |contents|
  {
    if contents == [] then []
    else
      var n := |contents| - 1;
      Upserted(nss[..n], contents[..n]) + Tag(nss[n], contents[n])
  }

  /** Writing one more chunk list appends its vectors. */
  lemma UpsertedStep(base: seq<Vector>, nss: seq<string>, contents: seq<seq<string>>, i: nat)
    requires i < |nss| && i < |contents|
    ensures base + Upserted(nss[..i + 1], contents[..i + 1]) == base + Upserted(nss[..i], contents[..i]) + Tag(nss[i], contents[i])
  {
    assert nss[..i + 1][..i] == nss[..i] && contents[..i + 1][..i] == contents[..i];
  }

  /** Each written text adds one vector. */
  lemma {:induction false} UpsertedCount(nss: seq<string>, contents: seq<seq<string>>)
    requires |nss| == |contents|
    ensures |Upserted(nss, contents)| == SumLengths(contents)
  {
    if contents != [] {
      var n := |contents| - 1;
      UpsertedCount(nss[..n], contents[..n]);
    }
  }

  lemma {:induction false} NamespaceTextsAppend(a: seq<Vector>, b: seq<Vector>, ns: string)
    ensures NamespaceTexts(a + b, ns) == NamespaceTexts(a, ns) + NamespaceTexts(b, ns)
  {
    if b != [] {
      var n := |b| - 1;
      assert (a + b)[..|a + b| - 1] == a + b[..n];
      NamespaceTextsAppend(a, b[..n], ns);
    } else {
      assert a + b == a;
    }
  }

  lemma {:induction false} NamespaceTextsTag(tagged: string, texts: seq<string>, ns: string)
    ensures NamespaceTexts(Tag(tagged, texts), ns) == if tagged == ns then texts else []
  {
    if texts != [] {
      var n := |texts| - 1;
      var vs := Tag(tagged, texts);
      assert vs[..n] == Tag(tagged, texts[..n]);
      assert vs[n] == Vector(tagged, texts[n]);
      NamespaceTextsTag(tagged, texts[..n], ns);
      assert NamespaceTexts(vs, ns) == NamespaceTexts(vs[..n], ns) + (if tagged == ns then [texts[n]] else []);
      assert texts == texts[..n] + [texts[n]];
    }
  }

  predicate NoDuplicates(s: seq<string>) {
    forall i, j :: 0 <= i < j < |s| ==> s[i] != s[j]
  }

  /** Each chunk list lands in its own namespace and nowhere else: with
      distinct namespaces, a namespace holds exactly the chunks of its file,
      and a namespace of no file receives nothing. */
  lemma {:induction false} UpsertedIntoOwnNamespace(nss: seq<string>, contents: seq<seq<string>>, ns: string)
    requires |nss| == |contents| && NoDuplicates(nss)
    ensures ns !in nss ==> NamespaceTexts(Upserted(nss, contents), ns) == []
    ensures forall i :: 0 <= i < |nss| && nss[i] == ns ==> NamespaceTexts(Upserted(nss, contents), ns) == contents[i]
  {
    if contents != [] {
      var n := |contents| - 1;
      var prev := Upserted(nss[..n], contents[..n]);
      UpsertedIntoOwnNamespace(nss[..n], contents[..n], ns);
      NamespaceTextsAppend(prev, Tag(nss[n], contents[n]), ns);
      NamespaceTextsTag(nss[n], contents[n], ns);
      if ns == nss[n] {
        assert ns !in nss[..n];
      }
    }
  }

  /** The stores returned for the given namespaces, in the same order. */
  function Stores(indexName: string, nss: seq<string>): (stores: seq<VectorStore>)
    ensures |stores| == |nss|
    ensures forall i :: 0 <= i < |nss| ==> stores[i] == VectorStore(indexName, nss[i])
  {
    seq(|nss|, i requires 0 <= i < |nss| => VectorStore(indexName, nss[i]))
  }

  /** What `insert_documents` hands back and what the index holds after it. */
  datatype Insertion = Insertion(stores: seq<VectorStore>, vectors: seq<Vector>)

  /** The decision of `insert_documents`, taken once from the index's total
      vector count: an empty index gets each file's chunks under the file's
      namespace (as far as the shorter of the two lists reaches); an index
      holding anything is left as it is and one store per file is attached. */
  function InsertOrAttach(indexName: string, vectors: seq<Vector>, pdfFiles: seq<string>, contents: seq<seq<string>>): (r: Insertion)
    // nothing already stored is lost: vectors are only appended
    ensures |vectors| <= |r.vectors| && r.vectors[..|vectors|] == vectors
    // an index holding anything is not written to
    ensures |vectors| > 0 ==> r.vectors == vectors
    // one store per written (file, chunk list) pair, or per file
    ensures |r.stores| == if |vectors| == 0 then Min(|pdfFiles|, |contents|) else |pdfFiles|
  {
    var nss := Namespaces(pdfFiles);
    if |vectors| == 0 then
      var m := Min(|nss|, |contents|);
      Insertion(Stores(indexName, nss[..m]), vectors + Upserted(nss[..m], contents[..m]))
    else
      Insertion(Stores(indexName, nss), vectors)
  }

  /** Empty index: one store per (file, chunk list) pair in file order, and
      the vector count grows by the number of chunks written. */
  lemma EmptyIndexIngests(indexName: string, vectors: seq<Vector>, pdfFiles: seq<string>, contents: seq<seq<string>>)
    requires |vectors| == 0
    ensures var r := InsertOrAttach(indexName, vectors, pdfFiles, contents);
            var m := Min(|pdfFiles|, |contents|);
            && |r.stores| == m
            && (forall i :: 0 <= i < m ==> r.stores[i] == VectorStore(indexName, Namespace(pdfFiles[i])))
            && |r.vectors| == |vectors| + SumLengths(contents[..m])
  {
    var m := Min(|pdfFiles|, |contents|);
    UpsertedCount(Namespaces(pdfFiles)[..m], contents[..m]);
  }

  /** Empty index, files with distinct namespaces: afterwards each file's
      namespace holds exactly that file's chunks. */
  lemma EmptyIndexNamespaceHoldsFileChunks(indexName: string, vectors: seq<Vector>, pdfFiles: seq<string>, contents: seq<seq<string>>, i: nat)
    requires |vectors| == 0 && NoDuplicates(Namespaces(pdfFiles))
    requires i < |pdfFiles| && i < |contents|
    ensures NamespaceTexts(InsertOrAttach(indexName, vectors, pdfFiles, contents).vectors, Namespace(pdfFiles[i])) == contents[i]
  {
    var nss := Namespaces(pdfFiles);
    var m := Min(|nss|, |contents|);
    assert NoDuplicates(nss[..m]);
    assert nss[..m][i] == Namespace(pdfFiles[i]);
    UpsertedIntoOwnNamespace(nss[..m], contents[..m], Namespace(pdfFiles[i]));
    assert vectors + Upserted(nss[..m], contents[..m]) == Upserted(nss[..m], contents[..m]);
  }

  /** Empty index with at least one non-empty chunk list among the paired
      ones: afterwards the index holds vectors. */
  lemma EmptyIndexGainsVectors(indexName: string, vectors: seq<Vector>, pdfFiles: seq<string>, contents: seq<seq<string>>, i: nat)
    requires |vectors| == 0
    requires i < |pdfFiles| && i < |contents| && |contents[i]| > 0
    ensures |InsertOrAttach(indexName, vectors, pdfFiles, contents).vectors| > 0
  {
    var m := Min(|pdfFiles|, |contents|);
    EmptyIndexIngests(indexName, vectors, pdfFiles, contents);
    SumLengthsAtLeast(contents[..m], i);
  }

  lemma {:induction false} SumLengthsAtLeast(contents: seq<seq<string>>, i: nat)
    requires i < |contents|
    ensures SumLengths(contents) >= |contents[i]|
  {
    var n := |contents| - 1;
    if i < n {
      SumLengthsAtLeast(contents[..n], i);
    }
  }

  /** Non-empty index: nothing is written, the chunk lists are ignored, and
      one store is attached per file, in file order. */
  lemma NonEmptyIndexAttaches(indexName: string, vectors: seq<Vector>, pdfFiles: seq<string>, contents: seq<seq<string>>, other: seq<seq<string>>)
    requires |vectors| > 0
    ensures var r := InsertOrAttach(indexName, vectors, pdfFiles, contents);
            && r.vectors == vectors
            && |r.stores| == |pdfFiles|
            && (forall i :: 0 <= i < |pdfFiles| ==> r.stores[i] == VectorStore(indexName, Namespace(pdfFiles[i])))
            && r == InsertOrAttach(indexName, vectors, pdfFiles, other)
  {
  }

  /** The decision is index-wide: a file whose namespace holds nothing is not
      ingested when any other namespace holds a vector, so a partly ingested
      index stays partly ingested. */
  lemma PartialIndexNotRepaired(indexName: string, vectors: seq<Vector>, pdfFiles: seq<string>, contents: seq<seq<string>>, i: nat)
    requires |vectors| > 0 && i < |pdfFiles|
    requires NamespaceTexts(vectors, Namespace(pdfFiles[i])) == []
    ensures NamespaceTexts(InsertOrAttach(indexName, vectors, pdfFiles, contents).vectors, Namespace(pdfFiles[i])) == []
  {
  }

  // ---------------------------------------------------------------------
  // Index creation
  // ---------------------------------------------------------------------

  /** The service's indexes after `create_index`: the named index exists; it
      is added, empty and with the fixed settings, only if it was missing. */
  function WithIndex(indexes: map<string, IndexInfo>, name: string, spec: ServerlessSpec): (r: map<string, IndexInfo>)
    ensures r.Keys == indexes.Keys + {name}
    ensures forall n :: n in indexes ==> r[n] == indexes[n]
    ensures name !in indexes ==> r[name] == IndexInfo(Dimension, IndexMetric, spec, [])
  {
    if name in indexes then indexes else indexes[name := IndexInfo(Dimension, IndexMetric, spec, [])]
  }

  /** Creating twice is creating once, and at most one index is added. */
  lemma {:induction false} WithIndexIdempotent(indexes: map<string, IndexInfo>, name: string, spec: ServerlessSpec)
    ensures WithIndex(WithIndex(indexes, name, spec), name, spec) == WithIndex(indexes, name, spec)
    ensures |WithIndex(indexes, name, spec).Keys| <= |indexes.Keys| + 1
  {
    var r := WithIndex(indexes, name, spec);
    if name !in indexes {
      assert r.Keys == indexes.Keys + {name};
      assert |indexes.Keys + {name}| == |indexes.Keys| + 1;
    }
  }

  class IndexManager {
    const indexName: string
    const cloud: string
    const region: string
    /** The client through which the hosted service is reached. */
    const pc: Service

    constructor (indexName: string, cloud: string, region: string, pc: Service)
      ensures this.indexName == indexName && this.cloud == cloud && this.region == region && this.pc == pc
    {
      this.indexName := indexName;
      this.cloud := cloud;
      this.region := region;
      this.pc := pc;
    }

    /** `create_index`: issues a create only when the name is not among the
        service's index names, then returns a handle on the named index. */
    method CreateIndex() returns (index: IndexHandle)
      modifies pc
      ensures pc.indexes == WithIndex(old(pc.indexes), indexName, ServerlessSpec(cloud, region))
      ensures index == IndexHandle(indexName) && indexName in pc.indexes
    {
      if indexName !in pc.IndexNames() {
        var spec := ServerlessSpec(cloud, region);
        pc.CreateIndex(indexName, Dimension, IndexMetric, spec);
      }
      index := IndexHandle(indexName);
    }

    /** `insert_documents`: reads the index's total vector count once; when
        it is zero, writes each file's chunk list into the file's namespace,
        otherwise attaches a store to every file's namespace. The stores come
        back in file order. A missing index makes the statistics query fail. */
    method InsertDocuments(pdfFiles: seq<string>, contents: seq<seq<string>>) returns (r: Result<seq<VectorStore>, Error>)
      modifies pc
      ensures indexName !in old(pc.indexes) ==> r == Failure(NotFound(indexName)) && pc.indexes == old(pc.indexes)
      ensures indexName in old(pc.indexes) ==>
                var info := old(pc.indexes)[indexName];
                var ins := InsertOrAttach(indexName, info.vectors, pdfFiles, contents);
                r == Success(ins.stores) && pc.indexes == WithVectors(old(pc.indexes), indexName, ins.vectors)
    {
      var nss := Namespaces(pdfFiles);
      var vectorstores: seq<VectorStore> := [];
      var stats := DescribeStats(pc.indexes, indexName);
      if stats.Failure? {
        return Failure(stats.error);
      }
      if stats.value == 0 {
        vectorstores := UpsertEach(nss, contents);
      } else {
        vectorstores := AttachEach(nss);
        assert vectorstores == Stores(indexName, nss);
        assert pc.indexes == WithVectors(pc.indexes, indexName, pc.indexes[indexName].vectors);
      }
      r := Success(vectorstores);
    }

    /** The loop of the empty-index branch: each (namespace, chunk list) pair
        of `zip(ns, contents)` is written with `from_texts`, and its store is
        collected. */
    method UpsertEach(nss: seq<string>, contents: seq<seq<string>>) returns (vectorstores: seq<VectorStore>)
      requires indexName in pc.indexes
      modifies pc
      ensures var m := Min(|nss|, |contents|);
              && vectorstores == Stores(indexName, nss[..m])
              && pc.indexes == WithVectors(old(pc.indexes), indexName, old(pc.indexes)[indexName].vectors + Upserted(nss[..m], contents[..m]))
    {
      ghost var before := pc.indexes[indexName].vectors;
      vectorstores := [];
      var i := 0;
      assert Upserted(nss[..0], contents[..0]) == [] && before + [] == before;
      assert pc.indexes == WithVectors(old(pc.indexes), indexName, before);
      while i < |nss| && i < |contents|
        invariant 0 <= i <= Min(|nss|, |contents|)
        invariant pc.indexes == WithVectors(old(pc.indexes), indexName, before + Upserted(nss[..i], contents[..i]))
        invariant |vectorstores| == i && forall j :: 0 <= j < i ==> vectorstores[j] == VectorStore(indexName, nss[j])
      {
        ghost var written := Upserted(nss[..i], contents[..i]);
        UpsertedStep(before, nss, contents, i);
        var vectorstore := pc.FromTexts(contents[i], indexName, nss[i]);
        WithVectorsTwice(old(pc.indexes), indexName, before + written, before + written + Tag(nss[i], contents[i]));
        vectorstores := vectorstores + [vectorstore];
        i := i + 1;
      }
      assert vectorstores == Stores(indexName, nss[..i]);
    }

    /** The loop of the non-empty branch: a store attached to every
        namespace, in order, with nothing written. */
    method AttachEach(nss: seq<string>) returns (vectorstores: seq<VectorStore>)
      ensures |vectorstores| == |nss|
      ensures forall i :: 0 <= i < |nss| ==> vectorstores[i].indexName == indexName && vectorstores[i].namespace == nss[i]
      ensures vectorstores == Stores(indexName, nss)
    {
      vectorstores := [];
      for i := 0 to |nss|
        invariant |vectorstores| == i && forall j :: 0 <= j < i ==> vectorstores[j] == VectorStore(indexName, nss[j])
      {
        var vectorstore := FromExistingIndex(indexName, nss[i]);
        vectorstores := vectorstores + [vectorstore];
      }
    }
  }
}
