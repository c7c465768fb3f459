/** Embedding chunks and storing them as points of the vector collection
    (`generate_embeddings` and `store_article`). The embedding service, the
    identifier generator and the collection are passed in: the service as the
    list of embeddings it answers for a text, identifiers as one per chunk
    position, and the collection as the sequence of points written to it. */
module Indexer {
  import opened Wrappers
  import opened Strings
  import opened Seqs
  import opened Frontmatter

  type Vector = seq<real>

  /** The embedding service: the `embeddings` list it answers for a text. */
  type Embedder = String -> seq<Vector>

  /** A stored point: identifier, vector and payload. */
  datatype Point = Point(id: String, vector: Vector, payload: Metadata)

  /** The payload key that carries the chunk text. */
  const ContentKey: String := "content"

  /** `generate_embeddings` once the service has answered: the first
      embedding, or nothing when the list is empty. */
  function FirstEmbedding(embeddings: seq<Vector>): (v: Option<Vector>)
    ensures v.None? <==> |embeddings| == 0
    ensures v.Some? ==> v.value == embeddings[0]
  {
    if |embeddings| > 0 then Some(embeddings[0]) else None
  }

  /** `{**metadata, "content": chunk}`: every metadata entry, with the chunk
      text under the content key replacing any entry already there. */
  function Payload(metadata: Metadata, chunk: String): (p: Metadata)
    ensures p.Keys == metadata.Keys + {ContentKey}
    ensures p[ContentKey] == Text(chunk)
    ensures forall k :: k in metadata && k != ContentKey ==> p[k] == metadata[k]
  {
    metadata[ContentKey := Text(chunk)]
  }

  /** Which chunks the service gives an embedding for. */
  function EmbeddedMarks(chunks: seq<String>, embed: Embedder): (marks: seq<bool>)
    ensures |marks| == |chunks|
    ensures forall i :: 0 <= i < |chunks| ==> marks[i] == FirstEmbedding(embed(chunks[i])).Some?
  {
    seq(|chunks|, i requires 0 <= i < |chunks| => FirstEmbedding(embed(chunks[i])).Some?)
  }

  /** The point stored for chunk `i`, when it has an embedding. */
  function PointFor(metadata: Metadata, chunks: seq<String>, ids: nat -> String, embed: Embedder, i: nat): Point
    requires i < |chunks| && |embed(chunks[i])| > 0
  {
    Point(ids(i), embed(chunks[i])[0], Payload(metadata, chunks[i]))
  }

  /** `store_article`: every chunk gets an identifier and a payload; the
      ones the service embeds are appended to the collection, in chunk order,
      and the others are skipped. Nothing already stored changes. */
  method StoreArticle(store: seq<Point>, metadata: Metadata, chunks: seq<String>,
                      ids: nat -> String, embed: Embedder)
    returns (store': seq<Point>)
    ensures var kept := PositionsBelow(EmbeddedMarks(chunks, embed), |chunks|);
            && |store'| == |store| + |kept|
            && store'[..|store|] == store
            && forall j :: 0 <= j < |kept| ==>
                 store'[|store| + j] == PointFor(metadata, chunks, ids, embed, kept[j])
    ensures |store'| == |store| + multiset(EmbeddedMarks(chunks, embed))[true]
  {
    ghost var marks := EmbeddedMarks(chunks, embed);
    store' := store;
    var i := 0;
    while i < |chunks|
      invariant 0 <= i <= |chunks|
      invariant var kept := PositionsBelow(marks, i);
                && |store'| == |store| + |kept|
                && store'[..|store|] == store
                && forall j :: 0 <= j < |kept| ==>
                     store'[|store| + j] == PointFor(metadata, chunks, ids, embed, kept[j])
    {
      ghost var before := PositionsBelow(marks, i);
      assert PositionsBelow(marks, i + 1) == before + (if marks[i] then [i] else []);
      var id := ids(i);
      var payload := Payload(metadata, chunks[i]);
      var vector := FirstEmbedding(embed(chunks[i]));
      if vector.Some? {
        store' := store' + [Point(id, vector.value, payload)];
      }
      i := i + 1;
    }
    PositionsCount(marks, |chunks|);
    assert marks[..|chunks|] == marks;
  }
}
