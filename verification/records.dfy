/** `create_data_to_upsert_from_urls` of utils.py: the (id, vector, metadata) triples sent to the index. */
module Records {
  import opened Text
  import BatchEmbed

  /** The metadata dictionary `{'ID': index, 'image': url}`. */
  datatype Metadata = Metadata(id: nat, image: BatchEmbed.Url)

  /** One upsert tuple `(str(index), embedding, metadata)`. */
  datatype Record = Record(id: string, values: BatchEmbed.Embedding, metadata: Metadata)

  /** Python's `zip` over three lists: stops at the end of the shortest one. */
  function Zip3<A, B, C>(a: seq<A>, b: seq<B>, c: seq<C>): (r: seq<(A, B, C)>)
    ensures |r| <= |a| && |r| <= |b| && |r| <= |c|
    ensures |r| == |a| || |r| == |b| || |r| == |c|
    ensures forall i :: 0 <= i < |r| ==> r[i] == (a[i], b[i], c[i])
  {
    if a == [] || b == [] || c == [] then []
    else [(a[0], b[0], c[0])] + Zip3(a[1..], b[1..], c[1..])
  }

  /**
    The upsert records for `dataset` and `embeddings`. The lists are zipped, so
    the result is as long as the shorter one; `numImages` is accepted and unused.
  */
  function CreateDataToUpsert(dataset: seq<BatchEmbed.Url>, embeddings: seq<BatchEmbed.Embedding>, numImages: int)
    : (r: seq<Record>)
    ensures |r| == if |dataset| < |embeddings| then |dataset| else |embeddings|
    ensures forall i :: 0 <= i < |r| ==>
      && r[i].values == embeddings[i]
      && r[i].metadata == Metadata(i, dataset[i])
      && r[i].id == DecimalString(i) && ParseDecimal(r[i].id) == i
    ensures forall i, j :: 0 <= i < j < |r| ==> r[i].id != r[j].id
  {
    var metadata := seq(|dataset|, i requires 0 <= i < |dataset| => Metadata(i, dataset[i]));
    var imageIds := seq(|dataset|, i requires 0 <= i < |dataset| => DecimalString(i));
    var triples := Zip3(imageIds, embeddings, metadata);
    var r := seq(|triples|, i requires 0 <= i < |triples| => Record(triples[i].0, triples[i].1, triples[i].2));
    assert forall i :: 0 <= i < |r| ==> ParseDecimal(r[i].id) == i by {
      forall i | 0 <= i < |r| {
        ParseDecimalString(i);
      }
    }
    r
  }


  /** The `num_images` argument has no effect on the records. */
  lemma NumImagesIgnored(dataset: seq<BatchEmbed.Url>, embeddings: seq<BatchEmbed.Embedding>, n: int, n': int)
    ensures CreateDataToUpsert(dataset, embeddings, n) == CreateDataToUpsert(dataset, embeddings, n')
  {
  }
}
