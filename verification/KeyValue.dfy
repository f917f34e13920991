/** Key-value maps and the write-back cache items laid over them. */
module KeyValue {
  import opened Prelude

  type Map = map<Bytes, Bytes>

  datatype CacheItem = CacheItem(value: Bytes, deleted: bool)

  /** What reads see: cached entries over those of the database. */
  function Overlay(db: Map, cache: map<Bytes, CacheItem>): (r: Map)
    ensures forall k :: k in r <==> if k in cache then !cache[k].deleted else k in db
    ensures forall k | k in r :: r[k] == if k in cache then cache[k].value else db[k]
  {
    var keys := (set k | k in cache && !cache[k].deleted) + (set k | k in db && k !in cache);
    map k | k in keys :: if k in cache then cache[k].value else db[k]
  }

  function Lookup(m: Map, k: Bytes): Option<Bytes> {
    if k in m then Some(m[k]) else None
  }
}
