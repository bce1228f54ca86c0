/** ProcessingMetadataManager: the ledger is one JSON document in the
    bucket, read with a null-means-empty rule and written back whole. The
    JSON serializer is a pair of opaque functions; none of the lemmas below
    relies on it round-tripping unless it says so. */
module ProcessingMetadataManager {
  import opened Common
  import opened Metadata
  import opened AwsS3BlobStorage

  /** JsonSerializer over the ledger. `deserialize` yields None when the
      bytes are not a JSON array of archive records (the serializer throws,
      or the document is the literal null that the `!` lets through). */
  datatype LedgerCodec = LedgerCodec(
    serialize: ProcessingMetadata -> Bytes,
    deserialize: Bytes -> Option<ProcessingMetadata>)

  /** Where the ledger lives: ProcessingMetadata.Filename at the bucket root. */
  function LedgerId(container: string, ledgerFilename: string): ObjectId
  {
    ObjectId(container, CreateKey(ledgerFilename, ""))
  }

  /** What LoadAsync returns for a given store state. */
  function LoadLedger(objects: map<ObjectId, Bytes>, faults: set<ObjectId>, codec: LedgerCodec, id: ObjectId)
    : (r: Result<ProcessingMetadata, Fault>)
    ensures id in faults ==> r == Err(StorageFault)
    ensures id !in faults && id !in objects ==> r == Ok([])
    ensures r == Err(LedgerDeserializeFault) <==>
              id !in faults && id in objects && codec.deserialize(objects[id]).None?
    ensures r.Ok? && id in objects ==> codec.deserialize(objects[id]) == Some(r.value)
  {
    var file := Fetch(objects, faults, id);
    if file.Err? then Err(file.error)
    else if file.value.None? then Ok([])
    else
      var ledger := codec.deserialize(file.value.value);
      if ledger.None? then Err(LedgerDeserializeFault) else Ok(ledger.value)
  }

  /** The store after SaveAsync: the serialized ledger replaces whatever was
      stored under the ledger id, unless the request fails. */
  function SavedLedger(objects: map<ObjectId, Bytes>, faults: set<ObjectId>, codec: LedgerCodec,
                       id: ObjectId, ledger: ProcessingMetadata): map<ObjectId, Bytes>
  {
    if id in faults then objects else Put(objects, id, codec.serialize(ledger), true)
  }

  /** Loading after a successful save reads back exactly the bytes that were
      saved, whatever was stored before; so with a codec that round-trips
      this ledger, the load returns it. */
  lemma LoadAfterSave(objects: map<ObjectId, Bytes>, faults: set<ObjectId>, codec: LedgerCodec,
                      id: ObjectId, ledger: ProcessingMetadata)
    requires id !in faults
    ensures var after := SavedLedger(objects, faults, codec, id, ledger);
      && id in after && after[id] == codec.serialize(ledger)
      && (codec.deserialize(codec.serialize(ledger)) == Some(ledger) ==>
            LoadLedger(after, faults, codec, id) == Ok(ledger))
  {
  }

  /** Saving the ledger touches no other object, and a failed save touches
      nothing. */
  lemma SaveTouchesOnlyTheLedger(objects: map<ObjectId, Bytes>, faults: set<ObjectId>, codec: LedgerCodec,
                                 id: ObjectId, ledger: ProcessingMetadata)
    ensures var after := SavedLedger(objects, faults, codec, id, ledger);
      && after.Keys - {id} == objects.Keys - {id}
      && (forall other :: other in objects && other != id ==> after[other] == objects[other])
      && (id in faults ==> after == objects)
  {
  }

  /** The ledger reader/writer over the bucket named in the configuration. */
  class MetadataManager {
    const store: BlobStore
    const container: string
    /** ProcessingMetadata.Filename; its value is a parameter of the model. */
    const ledgerFilename: string
    const codec: LedgerCodec

    constructor (store: BlobStore, container: string, ledgerFilename: string, codec: LedgerCodec)
      ensures this.store == store && this.container == container
      ensures this.ledgerFilename == ledgerFilename && this.codec == codec
    {
      this.store := store;
      this.container := container;
      this.ledgerFilename := ledgerFilename;
      this.codec := codec;
    }

    function Id(): ObjectId
    {
      LedgerId(container, ledgerFilename)
    }

    /** LoadAsync: an absent ledger is an empty list; a storage error or an
        undecodable ledger escapes. */
    method Load() returns (r: Result<ProcessingMetadata, Fault>)
      ensures r == LoadLedger(store.objects, store.faults, codec, Id())
    {
      var file := store.GetOrNull(container, ledgerFilename, "");
      if file.Err? {
        return Err(file.error);
      }
      if file.value.None? {
        return Ok([]);
      }
      var ledger := codec.deserialize(file.value.value);
      if ledger.None? {
        return Err(LedgerDeserializeFault);
      }
      r := Ok(ledger.value);
    }

    /** SaveAsync: serialize and overwrite. */
    method Save(ledger: ProcessingMetadata) returns (r: Outcome<Fault>)
      modifies store
      ensures r.Fail? <==> Id() in store.faults
      ensures store.objects == SavedLedger(old(store.objects), store.faults, codec, Id(), ledger)
    {
      var json := codec.serialize(ledger);
      r := store.Save(container, ledgerFilename, json, "", true);
    }
  }
}
