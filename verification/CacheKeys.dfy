/** Cache keys, and the per-file sets that list them for purging. */
module CacheKeys {

  type FileId = string

  /** `file:<fileId>:<version>`, kept as a pair. */
  datatype Key = Key(fileId: FileId, version: string)

  function KeysOf(keys: map<FileId, set<Key>>, fileId: FileId): set<Key> {
    if fileId in keys then keys[fileId] else {}
  }

  ghost predicate AllOfFile(ks: set<Key>, fileId: FileId) {
    forall k :: k in ks ==> k.fileId == fileId
  }

  /** Every live key is listed under its file, and every listed key is its file's. */
  ghost predicate Listed(live: set<Key>, keys: map<FileId, set<Key>>) {
    && (forall k :: k in live ==> k.fileId in keys && k in keys[k.fileId])
    && (forall f :: f in keys ==> AllOfFile(keys[f], f))
  }

  lemma WriteListed(live: set<Key>, keys: map<FileId, set<Key>>, k: Key)
    requires Listed(live, keys)
    ensures Listed(live + {k}, keys[k.fileId := KeysOf(keys, k.fileId) + {k}])
  {
  }

  lemma PurgeListed(live: set<Key>, keys: map<FileId, set<Key>>, fileId: FileId)
    requires Listed(live, keys)
    ensures Listed(live - KeysOf(keys, fileId), keys - {fileId})
    ensures forall k :: k in live ==> (k in KeysOf(keys, fileId) <==> k.fileId == fileId)
  {
  }
}
