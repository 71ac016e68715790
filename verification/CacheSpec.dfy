// What the memory cache of server/memdb.c means: a map from keys to typed,
// time-stamped entries, and the effect of each operation on it.
module CacheSpec {
  import opened Bytes
  import opened Wrappers

  type Time = int

  datatype Kind = C_DEL | C_UPD | C_TRYVAL | C_EXPIRE

  // typeval is only ever set for C_EXPIRE, where it is the time of expiry.
  datatype Entry = Entry(vals: seq<Text>, updTime: Time, kind: Kind, typeval: Option<Time>)

  type Cache = map<Text, Entry>

  // An entry as memdb_add makes it; non-results are kept for a while only.
  function NewEntry(vals: seq<Text>, now: Time, timeout: int): Entry {
    if vals == [] then Entry(vals, now, C_EXPIRE, Some(now + timeout))
    else Entry(vals, now, C_UPD, None)
  }

  predicate Replaceable(e: Entry) {
    e.kind == C_EXPIRE || e.kind == C_DEL
  }

  // memdb_add: insert, or replace an expiring or deleted entry; leave others.
  function Add(m: Cache, key: Text, vals: seq<Text>, now: Time, timeout: int): Cache {
    if key in m && !Replaceable(m[key]) then m else m[key := NewEntry(vals, now, timeout)]
  }

  // Whether a get throws the entry out instead of returning it.
  predicate OutOfDate(e: Entry, now: Time, mtime: Time) {
    match e.kind
    case C_DEL => false
    case C_EXPIRE => e.typeval.Some? && now >= e.typeval.value
    case _ => mtime > e.updTime
  }

  // memdb_get: a deleted key is found, with no values.
  function Get(m: Cache, key: Text, now: Time, mtime: Time): (Cache, Option<seq<Text>>) {
    if key !in m then (m, None)
    else if OutOfDate(m[key], now, mtime) then (m - {key}, None)
    else (m, Some(if m[key].kind == C_DEL then [] else m[key].vals))
  }

  // memdb_upd: the value count must match; then the entry is the caller's.
  function Update(m: Cache, key: Text, vals: seq<Text>, now: Time, timeout: int, fieldcount: int): (Cache, bool) {
    if |vals| != fieldcount then (m, false)
    else if key !in m then (Add(m, key, vals, now, timeout), true)
    else (m[key := Entry(vals, now, C_UPD, None)], true)
  }

  // memdb_del, as its map effect: the key is kept, marked deleted.
  function Delete(m: Cache, key: Text, now: Time, timeout: int): Cache {
    var u := if key in m then m else Add(m, key, [], now, timeout);
    u[key := u[key].(vals := [], kind := C_DEL, typeval := None)]
  }
}
