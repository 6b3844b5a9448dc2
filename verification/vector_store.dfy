/** vector_store.py: rebuilding the collection that holds a document's
    chunks, and querying it.

    The Chroma client is abstracted as a map from collection names to
    collections. The embedding model and the store's nearest-neighbour
    search are parameters: `encode` maps a list of texts to a list of
    vectors, and `search` returns the first result row for a list of
    query vectors and a requested number of results. */
module VectorStore {
  import opened Wrappers
  import opened Text
  import opened PdfProcessor

  /** `COLLECTION_NAME` of config.py. */
  const CollectionName: string := "pdf_rag_collection"

  /** The `hnsw:space` metadata the collection is created with. */
  const CosineSpace: string := "cosine"

  /** The `top_n` default of `query_vector_store`. */
  const DefaultTopN: nat := 5

  type Embedding = seq<real>

  /** One stored record: id, vector, chunk text and chunk metadata. */
  datatype Entry = Entry(id: string, embedding: Embedding, document: string, metadata: Meta)

  datatype Collection = Collection(name: string, space: string, entries: seq<Entry>)

  type Client = map<string, Collection>

  /** The id of the `i`-th chunk, `f"chunk_{i}"`. */
  function ChunkId(i: nat): string {
    "chunk_" + NatToString(i)
  }

  /** `[f"chunk_{i}" for i in range(n)]`. */
  function ChunkIds(n: nat): (r: seq<string>)
    ensures |r| == n
    ensures forall i :: 0 <= i < n ==> r[i] == ChunkId(i)
  {
    if n == 0 then [] else ChunkIds(n - 1) + [ChunkId(n - 1)]
  }

  /** Reads the chunk index back out of an id. */
  function ParseChunkId(id: string): Option<nat> {
    if |id| > 6 && id[..6] == "chunk_" then ParseNat(id[6..]) else None
  }

  lemma ChunkIdRoundTrip(i: nat)
    ensures ParseChunkId(ChunkId(i)) == Some(i)
  {
    var id := ChunkId(i);
    assert id[..6] == "chunk_";
    assert id[6..] == NatToString(i);
    ParseNatToString(i);
  }

  predicate Distinct(ids: seq<string>) {
    forall i, j :: 0 <= i < j < |ids| ==> ids[i] != ids[j]
  }

  lemma ChunkIdsDiffer(i: nat, j: nat)
    requires i != j
    ensures ChunkId(i) != ChunkId(j)
  {
    ChunkIdRoundTrip(i);
    ChunkIdRoundTrip(j);
  }

  lemma ChunkIdsDistinct(n: nat)
    ensures Distinct(ChunkIds(n))
  {
    var ids := ChunkIds(n);
    forall i, j | 0 <= i < j < n
      ensures ids[i] != ids[j]
    {
      ChunkIdsDiffer(i, j);
    }
  }

  /** One entry per index of four aligned lists. */
  function Zip(ids: seq<string>, embeddings: seq<Embedding>, documents: seq<string>, metadatas: seq<Meta>): (r: seq<Entry>)
    requires |embeddings| == |ids| && |documents| == |ids| && |metadatas| == |ids|
    ensures |r| == |ids|
    ensures forall i :: 0 <= i < |ids| ==> r[i] == Entry(ids[i], embeddings[i], documents[i], metadatas[i])
  {
    if |ids| == 0 then []
    else [Entry(ids[0], embeddings[0], documents[0], metadatas[0])]
         + Zip(ids[1..], embeddings[1..], documents[1..], metadatas[1..])
  }

  /** `collection.add(...)`. The store rejects (raises on) lists of
      different lengths and repeated ids; otherwise it stores one entry per
      index, in order, after the entries already present. */
  function Add(c: Collection, embeddings: seq<Embedding>, documents: seq<string>,
               metadatas: seq<Meta>, ids: seq<string>): (r: Option<Collection>)
    ensures r.Some? <==>
      |embeddings| == |ids| && |documents| == |ids| && |metadatas| == |ids| && Distinct(ids)
    // the name and the distance space are kept
    ensures r.Some? ==> r.value.name == c.name && r.value.space == c.space
    // the entries already present stay first, untouched
    ensures r.Some? ==> |r.value.entries| == |c.entries| + |ids| && r.value.entries[..|c.entries|] == c.entries
    // then entry `i` of the batch, in batch order
    ensures r.Some? ==> forall i :: 0 <= i < |ids| ==>
      r.value.entries[|c.entries| + i] == Entry(ids[i], embeddings[i], documents[i], metadatas[i])
  {
    if |embeddings| == |ids| && |documents| == |ids| && |metadatas| == |ids| && Distinct(ids) then
      Some(Collection(c.name, c.space, c.entries + Zip(ids, embeddings, documents, metadatas)))
    else None
  }

  /** The collection `setup_vector_store` creates, with cosine distance. */
  const Created: Collection := Collection(CollectionName, CosineSpace, [])

  /** Adding the encoded chunks under sequential ids to the freshly
      created collection; `None` when `add` raises. */
  function Populate(chunks: seq<string>, metadata: seq<Meta>,
                    encode: seq<string> -> seq<Embedding>): (r: Option<Collection>)
    // it succeeds exactly when the model gives one vector per chunk and
    // there is one metadata record per chunk: the ids are never repeated
    ensures r.Some? <==> |encode(chunks)| == |chunks| && |metadata| == |chunks|
    ensures r.Some? ==> r.value.name == CollectionName && r.value.space == CosineSpace
  {
    var ids := ChunkIds(|chunks|);
    ChunkIdsDistinct(|chunks|);
    Add(Created, encode(chunks), chunks, metadata, ids)
  }

  /** A populated collection holds exactly the new chunks: entry `i` is
      chunk `i` under id `chunk_i`, with its vector and its metadata. */
  lemma PopulateAligned(chunks: seq<string>, metadata: seq<Meta>, encode: seq<string> -> seq<Embedding>)
    requires Populate(chunks, metadata, encode).Some?
    ensures var entries := Populate(chunks, metadata, encode).value.entries;
      && |entries| == |chunks|
      && forall i :: 0 <= i < |chunks| ==>
           entries[i] == Entry(ChunkId(i), encode(chunks)[i], chunks[i], metadata[i])
  {
    var ids := ChunkIds(|chunks|);
    var zipped := Zip(ids, encode(chunks), chunks, metadata);
    assert Populate(chunks, metadata, encode).value.entries == [] + zipped;
    assert [] + zipped == zipped;
  }

  /** Dropping a name and then creating it again is, for the client,
      replacing whatever the name held. */
  function Recreate(client: Client, c: Collection): (r: Client)
    requires c.name == CollectionName
    ensures r.Keys == client.Keys + {CollectionName}
    ensures r[CollectionName] == c
    ensures forall name :: name in client && name != CollectionName ==> r[name] == client[name]
  {
    var cleared := if CollectionName in client then client - {CollectionName} else client;
    cleared[CollectionName := c]
  }

  /** What `setup_vector_store` leaves behind: the client's collections,
      and the collection it returns, `None` when `add` raised. */
  datatype Setup = Setup(client: Client, collection: Option<Collection>)

  /** `setup_vector_store`: drop any collection of the configured name (a
      failed lookup of an absent one is swallowed), create it afresh with
      cosine distance, and add the encoded chunks under sequential ids. */
  function SetupVectorStore(chunks: seq<string>, metadata: seq<Meta>,
                            encode: seq<string> -> seq<Embedding>, client: Client): (r: Setup)
    // only the configured name is touched
    ensures r.client.Keys == client.Keys + {CollectionName}
    ensures forall name :: name in client && name != CollectionName ==> r.client[name] == client[name]
    // the returned collection is the one the client now holds
    ensures r.collection == Populate(chunks, metadata, encode)
    ensures r.collection.Some? ==> r.client[CollectionName] == r.collection.value
    // a failed add leaves the freshly created, empty collection behind
    ensures r.collection.None? ==> r.client[CollectionName] == Created
  {
    match Populate(chunks, metadata, encode)
    case None => Setup(Recreate(client, Created), None)
    case Some(c) => Setup(Recreate(client, c), Some(c))
  }

  /** Whatever the client held before, setup ends in the same collection:
      no entry of an earlier document survives the rebuild. */
  lemma SetupForgetsPrevious(chunks: seq<string>, metadata: seq<Meta>,
                             encode: seq<string> -> seq<Embedding>, c1: Client, c2: Client)
    ensures SetupVectorStore(chunks, metadata, encode, c1).collection
         == SetupVectorStore(chunks, metadata, encode, c2).collection
    ensures SetupVectorStore(chunks, metadata, encode, c1).client[CollectionName]
         == SetupVectorStore(chunks, metadata, encode, c2).client[CollectionName]
  {
  }

  /** The stored entries carry pairwise distinct ids, and each id names the
      position of its chunk. */
  lemma SetupIds(chunks: seq<string>, metadata: seq<Meta>, encode: seq<string> -> seq<Embedding>)
    requires Populate(chunks, metadata, encode).Some?
    ensures var entries := Populate(chunks, metadata, encode).value.entries;
      forall i, j :: 0 <= i < j < |entries| ==> entries[i].id != entries[j].id
  {
    var entries := Populate(chunks, metadata, encode).value.entries;
    PopulateAligned(chunks, metadata, encode);
    NumberedIdsDistinct(entries);
  }

  /** Entries numbered with `chunk_i` ids have pairwise distinct ids. */
  lemma NumberedIdsDistinct(entries: seq<Entry>)
    requires forall i :: 0 <= i < |entries| ==> entries[i].id == ChunkId(i)
    ensures forall i, j :: 0 <= i < j < |entries| ==> entries[i].id != entries[j].id
  {
    forall i, j | 0 <= i < j < |entries|
      ensures entries[i].id != entries[j].id
    {
      ChunkIdsDiffer(i, j);
    }
  }

  /** The first row of a query's results. */
  datatype Retrieved = Retrieved(documents: seq<string>, metadatas: seq<Meta>, distances: seq<real>)

  /** `query_vector_store`: `None` stands for `(None, None, None)`. */
  function QueryVectorStore(query: string, collection: Option<Collection>,
                            encode: seq<string> -> seq<Embedding>,
                            search: (Collection, seq<Embedding>, nat) -> Retrieved,
                            topN: nat): (r: Option<Retrieved>)
    ensures r.None? <==> collection.None?
    // the store is searched with the query's embedding, for `topN` results
    ensures r.Some? ==> r.value == search(collection.value, encode([query]), topN)
  {
    if collection.None? then None
    else Some(search(collection.value, encode([query]), topN))
  }

  /** Without a collection nothing is encoded or searched: the answer is
      the same whatever the model and the store would have done. */
  lemma QueryWithoutCollection(query: string,
                               encode1: seq<string> -> seq<Embedding>, encode2: seq<string> -> seq<Embedding>,
                               search1: (Collection, seq<Embedding>, nat) -> Retrieved,
                               search2: (Collection, seq<Embedding>, nat) -> Retrieved,
                               topN: nat)
    ensures QueryVectorStore(query, None, encode1, search1, topN) == None
    ensures QueryVectorStore(query, None, encode1, search1, topN)
         == QueryVectorStore(query, None, encode2, search2, topN)
  {
  }

  /** The application queries with the default: five results requested. */
  function QueryDefault(query: string, collection: Option<Collection>,
                        encode: seq<string> -> seq<Embedding>,
                        search: (Collection, seq<Embedding>, nat) -> Retrieved): (r: Option<Retrieved>)
    ensures r.None? <==> collection.None?
    ensures r.Some? ==> r.value == search(collection.value, encode([query]), 5)
  {
    QueryVectorStore(query, collection, encode, search, DefaultTopN)
  }
}
