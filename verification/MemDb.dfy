// server/memdb.c: the bucket array and its chains of entries, changed in
// place.  Every operation is proved to have its effect on the map of
// CacheSpec; the clock is a parameter.
module MemDb {
  import opened Bytes
  import opened Wrappers
  import opened Md5Spec
  import Md5
  import opened CacheSpec

  const HASHSIZE := 1024

  // hashkey: the first word of the key's digest, modulo the table size.
  function BucketOf(f: Transform, key: Text): (b: nat)
    ensures b < HASHSIZE
  {
    FromLe32(Digest(f, key)[..4]) % HASHSIZE
  }

  method HashKey(f: Transform, key: Text) returns (b: nat)
    requires |key| < WORD
    ensures b == BucketOf(f, key)
  {
    hide Digest, FromLe32, Md5Spec.Overlay;
    var md5hash := new Byte[32];
    ghost var before := md5hash[..];
    DigestFits(before, Digest(f, key));
    Md5.Md5Calc(f, md5hash, key, 32);
    b := FromLe32(md5hash[..4]) % HASHSIZE;
  }

  // In numbers: the first chaining variable of the digest, modulo 1024.
  lemma BucketIs(f: Transform, key: Text)
    ensures BucketOf(f, key) == Fold(f, INIT, Pad(key)).a % 1024
  {
    hide Fold, Pad, Le32, FromLe32;
    var st := Fold(f, INIT, Pad(key));
    assert Digest(f, key)[..4] == Le32(st.a);
    Le32RoundTrip(st.a);
  }

  lemma DigestFits(dst: Text, digest: Text)
    requires |dst| == 32 && |digest| == 16
    ensures Encoded(16, 32) == 16 && Md5Spec.Overlay(dst, digest, 32)[..4] == digest[..4]
  {
  }

  // cachent_t with its mement_t.
  class Node {
    const key: Text
    var vals: seq<Text>
    var updTime: Time
    var kind: Kind
    var typeval: Option<Time>
    var next: Node?

    constructor (key: Text, e: Entry)
      ensures this.key == key && Value() == e && next == null
    {
      this.key := key;
      vals, updTime, kind, typeval := e.vals, e.updTime, e.kind, e.typeval;
      next := null;
    }

    function Value(): Entry
      reads this
    {
      Entry(vals, updTime, kind, typeval)
    }

    // The assignments of memdb_upd to an entry that is there.
    method Refill(vals: seq<Text>, now: Time)
      modifies this
      ensures Value() == Entry(vals, now, C_UPD, None) && next == old(next)
    {
      kind := C_UPD;
      typeval := None;
      updTime := now;
      this.vals := vals;
    }

    // The assignments of memdb_del.
    method MarkDeleted()
      modifies this
      ensures Value() == old(Value()).(vals := [], kind := C_DEL, typeval := None) && next == old(next)
    {
      typeval := None;
      kind := C_DEL;
      vals := [];
    }
  }

  ghost function Successor(chain: seq<Node>, j: int): Node? {
    if 0 <= j + 1 < |chain| then chain[j + 1] else null
  }

  // The chain that starts at head, link by link, and ends.
  ghost predicate Linked(head: Node?, chain: seq<Node>)
    reads chain
  {
    && head == Successor(chain, -1)
    && forall j {:trigger chain[j].next} :: 0 <= j < |chain| ==> chain[j].next == Successor(chain, j)
  }

  // No key occurs twice.
  ghost predicate UniqueKeys(chain: seq<Node>) {
    forall i, j :: 0 <= i < j < |chain| ==> chain[i].key != chain[j].key
  }

  ghost predicate HasKey(chain: seq<Node>, key: Text) {
    exists j :: 0 <= j < |chain| && chain[j].key == key
  }

  // The nodes of the chain hold exactly the entries of m.
  ghost predicate Holds(chain: seq<Node>, m: Cache)
    reads chain
  {
    && (forall j :: 0 <= j < |chain| ==> chain[j].key in m && m[chain[j].key] == chain[j].Value())
    && (forall k :: k in m ==> HasKey(chain, k))
  }

  function Without(chain: seq<Node>, j: nat): seq<Node>
    requires j < |chain|
  {
    chain[..j] + chain[j + 1..]
  }

  lemma WithoutKeys(chain: seq<Node>, j: nat, m: Cache)
    requires j < |chain| && UniqueKeys(chain) && Holds(chain, m)
    ensures UniqueKeys(Without(chain, j)) && Holds(Without(chain, j), m - {chain[j].key})
  {
    var short := Without(chain, j);
    WithoutPlaces(chain, j);
    hide Without;
    forall k | k in m - {chain[j].key}
      ensures HasKey(short, k)
    {
      var i :| 0 <= i < |chain| && chain[i].key == k;
      assert short[if i < j then i else i - 1].key == k;
    }
  }

  lemma WithoutPlaces(chain: seq<Node>, j: nat)
    requires j < |chain|
    ensures |Without(chain, j)| == |chain| - 1
    ensures forall i :: 0 <= i < |chain| - 1 ==> Without(chain, j)[i] == chain[if i < j then i else i + 1]
  {
  }

  // Linked, except for the link into place j.
  ghost predicate LinkedBut(head: Node?, chain: seq<Node>, j: nat)
    reads chain
    requires j <= |chain|
  {
    && (j > 0 ==> head == chain[0])
    && forall i {:trigger chain[i].next} ::
         0 <= i < |chain| && i != j - 1 ==> chain[i].next == Successor(chain, i)
  }

  ghost function LinkInto(head: Node?, chain: seq<Node>, j: nat): Node?
    reads chain
    requires j <= |chain|
  {
    if j == 0 then head else chain[j - 1].next
  }

  lemma LinkedWithout(head: Node?, chain: seq<Node>, j: nat)
    requires j < |chain| && LinkedBut(head, chain, j) && LinkInto(head, chain, j) == Successor(chain, j)
    ensures Linked(head, Without(chain, j))
  {
    var short := Without(chain, j);
    forall i | 0 <= i < |short|
      ensures short[i].next == Successor(short, i)
    {
      var n := if i < j then i else i + 1;
      assert short[i] == chain[n];
    }
  }

  // One cell of the bucket array, with the chain that hangs from it.
  class Bucket {
    var head: Node?
    ghost var chain: seq<Node>
    ghost var entries: Cache
    ghost var repr: set<object>

    ghost predicate Valid()
      reads this, repr
      ensures Valid() ==> this in repr
    {
      && this in repr && (forall j :: 0 <= j < |chain| ==> chain[j] in repr)
      && Linked(head, chain) && UniqueKeys(chain) && Holds(chain, entries)
    }

    constructor ()
      ensures Valid() && fresh(repr) && entries == map[]
    {
      head := null;
      chain, entries, repr := [], map[], {this};
    }

    // The loop of memdb_get, memdb_upd and memdb_del: the entry with the key,
    // and the one before it.
    method Find(key: Text) returns (p: Node?, q: Node?, ghost j: nat)
      requires Valid()
      ensures p == null <==> key !in entries
      ensures p != null ==> j < |chain| && p == chain[j] && p.key == key
      ensures p != null ==> q == if j == 0 then null else chain[j - 1]
    {
      p, q, j := head, null, 0;
      while p != null && p.key != key
        invariant j <= |chain| && p == Successor(chain, j - 1)
        invariant q == if j == 0 then null else chain[j - 1]
        invariant forall i :: 0 <= i < j ==> chain[i].key != key
        decreases |chain| - j
      {
        q := p;
        p := p.next;
        j := j + 1;
      }
      if p == null {
        assert j == |chain|;
        assert !HasKey(chain, key);
      }
    }

    // Makes n what follows q, or the head if q is null.
    method Link(q: Node?, n: Node?, ghost j: nat)
      requires Valid() && j <= |chain|
      requires q == if j == 0 then null else chain[j - 1]
      modifies repr
      ensures chain == old(chain) && entries == old(entries) && repr == old(repr)
      ensures LinkedBut(head, chain, j) && LinkInto(head, chain, j) == n
      ensures Holds(chain, entries)
      ensures forall m: Node :: m in repr ==> m.Value() == old(m.Value())
    {
      if q != null {
        LinkNode(q, n, j);
      } else {
        head := n;
      }
    }

    method LinkNode(q: Node, n: Node?, ghost j: nat)
      requires Linked(head, chain) && UniqueKeys(chain) && Holds(chain, entries)
      requires 0 < j <= |chain| && q == chain[j - 1]
      modifies q
      ensures LinkedBut(head, chain, j) && chain[j - 1].next == n && Holds(chain, entries)
      ensures q.Value() == old(q.Value())
    {
      UniqueNodes(chain);
      hide UniqueKeys;
      q.next := n;
    }

    // Takes p out of the chain; q is the entry before it.
    method Unlink(p: Node, q: Node?, ghost j: nat)
      requires Valid() && j < |chain| && p == chain[j]
      requires q == if j == 0 then null else chain[j - 1]
      modifies repr
      ensures Valid() && repr == old(repr) && entries == old(entries) - {p.key}
    {
      hide UniqueKeys, Holds;
      assert p.next == Successor(chain, j) && q != p by { UniqueNodes(chain); }
      Link(q, p.next, j);
      hide LinkedBut, LinkInto, Linked;
      LinkedWithout(head, chain, j);
      WithoutKeys(chain, j, entries);
      chain := Without(chain, j);
      entries := entries - {p.key};
    }

    // memdb_get below the lock.  An entry that is out of date is unlinked and
    // not found.
    method Get(key: Text, now: Time, mtime: Time) returns (r: Option<seq<Text>>)
      requires Valid()
      modifies repr
      ensures Valid() && repr == old(repr)
      ensures (entries, r) == CacheSpec.Get(old(entries), key, now, mtime)
    {
      var p, q, j := Find(key);
      if p == null {
        return None;
      }
      match p.kind {
        case C_DEL =>
          return Some([]);
        case C_EXPIRE =>
          if p.typeval.Some? && now >= p.typeval.value {
            Unlink(p, q, j);
            return None;
          }
        case _ =>
          if mtime > p.updTime {
            Unlink(p, q, j);
            return None;
          }
      }
      return Some(p.vals);
    }

    // The entry itself, with the chain around it as it was.
    method RefillNode(p: Node, vals: seq<Text>, now: Time, ghost j: nat)
      requires Linked(head, chain) && UniqueKeys(chain) && Holds(chain, entries)
      requires j < |chain| && p == chain[j]
      modifies p
      ensures Linked(head, chain) && HoldsBut(chain, j, entries)
      ensures p.Value() == Entry(vals, now, C_UPD, None)
    {
      UniqueNodes(chain);
      hide UniqueKeys;
      p.Refill(vals, now);
    }

    method DeleteNode(p: Node, ghost j: nat)
      requires Linked(head, chain) && UniqueKeys(chain) && Holds(chain, entries)
      requires j < |chain| && p == chain[j]
      modifies p
      ensures Linked(head, chain) && HoldsBut(chain, j, entries)
      ensures p.Value() == old(p.Value()).(vals := [], kind := C_DEL, typeval := None)
    {
      UniqueNodes(chain);
      hide UniqueKeys;
      p.MarkDeleted();
    }

    // memdb_upd on an entry that is there.
    method Refill(p: Node, vals: seq<Text>, now: Time, ghost j: nat)
      requires Valid() && j < |chain| && p == chain[j]
      modifies repr
      ensures Valid() && repr == old(repr)
      ensures entries == old(entries)[p.key := Entry(vals, now, C_UPD, None)]
    {
      hide UniqueKeys, Holds, HoldsBut, Linked;
      RefillNode(p, vals, now, j);
      HoldsRefilled(chain, j, entries);
      entries := entries[p.key := p.Value()];
    }

    // memdb_del on an entry that is there.
    method MarkDeleted(p: Node, ghost j: nat)
      requires Valid() && j < |chain| && p == chain[j]
      modifies repr
      ensures Valid() && repr == old(repr)
      ensures entries == old(entries)[p.key := old(entries)[p.key].(vals := [], kind := C_DEL, typeval := None)]
    {
      hide UniqueKeys, Holds, HoldsBut, Linked;
      EntryAt(chain, j, entries);
      DeleteNode(p, j);
      HoldsRefilled(chain, j, entries);
      entries := entries[p.key := p.Value()];
    }

    // memdb_add below the lock.
    method Add(key: Text, vals: seq<Text>, now: Time, timeout: int)
      requires Valid()
      modifies repr
      ensures Valid() && fresh(repr - old(repr))
      ensures entries == CacheSpec.Add(old(entries), key, vals, now, timeout)
    {
      hide Valid;
      var ent := new Node(key, NewEntry(vals, now, timeout));
      if head == null {
        Found(ent);
      } else {
        AddToChain(ent);
      }
    }

    // The entry of the same key is replaced or left alone; if there is none, the
    // new one comes last.
    method AddToChain(ent: Node)
      requires Valid() && head != null && ent !in repr && ent.next == null
      modifies repr, ent
      ensures Valid() && repr <= old(repr) + {ent}
      ensures entries == if ent.key in old(entries) && !Replaceable(old(entries)[ent.key]) then old(entries)
                         else old(entries)[ent.key := old(ent.Value())]
    {
      hide UniqueKeys, Holds, Linked;
      var p, q, j := FindOrLast(ent.key);
      if p.key == ent.key {
        EntryAt(chain, j, entries);
        match p.kind {
          case C_EXPIRE => Replace(p, q, ent, j);
          case C_DEL => Replace(p, q, ent, j);
          case _ =>
        }
      } else {
        Append(p, ent);
      }
    }

    // The first entry of the bucket.
    method Found(ent: Node)
      requires Valid() && head == null && ent !in repr && ent.next == null
      modifies repr
      ensures Valid() && repr == old(repr) + {ent}
      ensures entries == map[ent.key := ent.Value()] && old(entries) == map[]
    {
      assert forall k :: k in entries ==> HasKey(chain, k);
      head := ent;
      chain, entries, repr := [ent], map[ent.key := ent.Value()], repr + {ent};
      assert chain[0].key == ent.key;
    }

    // The last entry's link, set to ent.
    method LastLink(p: Node, ent: Node)
      requires Linked(head, chain) && UniqueKeys(chain) && Holds(chain, entries)
      requires chain != [] && p == chain[|chain| - 1] && ent !in chain && ent.next == null
      modifies p
      ensures Linked(head, chain + [ent]) && Holds(chain, entries)
    {
      UniqueNodes(chain);
      hide UniqueKeys;
      p.next := ent;
      LinkedAppended(head, chain, ent);
    }

    method Append(p: Node, ent: Node)
      requires Valid() && chain != [] && p == chain[|chain| - 1]
      requires ent !in repr && ent.key !in entries && ent.next == null
      modifies repr
      ensures Valid() && repr == old(repr) + {ent}
      ensures entries == old(entries)[ent.key := ent.Value()]
    {
      hide UniqueKeys, Holds, Linked;
      LastLink(p, ent);
      AppendedKeys(chain, ent, entries);
      chain, entries, repr := chain + [ent], entries[ent.key := ent.Value()], repr + {ent};
    }

    // The loop of memdb_add: the entry with the key, or else the last one.
    method FindOrLast(key: Text) returns (p: Node, q: Node?, ghost j: nat)
      requires Valid() && head != null
      ensures j < |chain| && p == chain[j] && q == if j == 0 then null else chain[j - 1]
      ensures p.key == key <==> key in entries
      ensures p.key != key ==> j == |chain| - 1
    {
      p, q, j := head, null, 0;
      while p.next != null && p.key != key
        invariant j < |chain| && p == chain[j]
        invariant q == if j == 0 then null else chain[j - 1]
        invariant forall i :: 0 <= i < j ==> chain[i].key != key
        decreases |chain| - j
      {
        q := p;
        p := p.next;
        j := j + 1;
      }
      if p.key != key {
        assert !HasKey(chain, key);
      }
    }

    // Puts ent where p is.
    method Replace(p: Node, q: Node?, ent: Node, ghost j: nat)
      requires Valid() && j < |chain| && p == chain[j]
      requires q == if j == 0 then null else chain[j - 1]
      requires ent.key == p.key && ent !in repr
      modifies repr, ent
      ensures Valid() && repr == old(repr) + {ent}
      ensures entries == old(entries)[p.key := old(ent.Value())]
    {
      hide UniqueKeys, Holds;
      ent.next := p.next;
      assert ent.next == Successor(chain, j) && q != p by { UniqueNodes(chain); }
      Link(q, ent, j);
      hide Linked;
      LinkedReplaced(head, chain, j, ent);
      ReplacedKeys(chain, j, ent, entries);
      chain := chain[j := ent];
      entries := entries[p.key := ent.Value()];
      repr := repr + {ent};
    }
  }

  lemma EntryAt(chain: seq<Node>, j: nat, m: Cache)
    requires j < |chain| && Holds(chain, m)
    ensures chain[j].key in m && m[chain[j].key] == chain[j].Value()
  {
  }

  lemma LinkedReplaced(head: Node?, chain: seq<Node>, j: nat, ent: Node)
    requires j < |chain| && LinkedBut(head, chain, j) && LinkInto(head, chain, j) == ent
    requires ent.next == Successor(chain, j)
    ensures Linked(head, chain[j := ent])
  {
    var u := chain[j := ent];
    forall i | 0 <= i < |u|
      ensures u[i].next == Successor(u, i)
    {
      if i != j {
        assert u[i] == chain[i];
      }
    }
  }

  lemma ReplacedKeys(chain: seq<Node>, j: nat, ent: Node, m: Cache)
    requires j < |chain| && UniqueKeys(chain) && Holds(chain, m) && ent.key == chain[j].key
    ensures UniqueKeys(chain[j := ent]) && Holds(chain[j := ent], m[ent.key := ent.Value()])
  {
    var u := chain[j := ent];
    assert forall i :: 0 <= i < |u| ==> u[i].key == chain[i].key;
    forall k | k in m
      ensures HasKey(u, k)
    {
      var i :| 0 <= i < |chain| && chain[i].key == k;
      assert u[i].key == k;
    }
  }

  lemma LinkedAppended(head: Node?, chain: seq<Node>, ent: Node)
    requires chain != [] && head == chain[0] && ent.next == null && chain[|chain| - 1].next == ent
    requires forall i {:trigger chain[i].next} :: 0 <= i < |chain| - 1 ==> chain[i].next == Successor(chain, i)
    ensures Linked(head, chain + [ent])
  {
    var u := chain + [ent];
    forall i | 0 <= i < |u|
      ensures u[i].next == Successor(u, i)
    {
      if i < |chain| {
        assert u[i] == chain[i];
      }
    }
  }

  lemma AppendedKeys(chain: seq<Node>, ent: Node, m: Cache)
    requires UniqueKeys(chain) && Holds(chain, m) && ent.key !in m
    ensures UniqueKeys(chain + [ent]) && Holds(chain + [ent], m[ent.key := ent.Value()])
  {
    var u := chain + [ent];
    assert forall i :: 0 <= i < |u| ==> u[i] == if i < |chain| then chain[i] else ent;
    forall k | k in m
      ensures HasKey(u, k)
    {
      var i :| 0 <= i < |chain| && chain[i].key == k;
      assert u[i].key == k;
    }
    assert u[|chain|].key == ent.key;
  }

  // The entry at place j has changed, the others have not.
  ghost predicate HoldsBut(chain: seq<Node>, j: nat, m: Cache)
    reads chain
  {
    && j < |chain| && chain[j].key in m
    && (forall i :: 0 <= i < |chain| && i != j ==> chain[i].key in m && m[chain[i].key] == chain[i].Value())
    && (forall k :: k in m ==> HasKey(chain, k))
  }

  lemma HoldsRefilled(chain: seq<Node>, j: nat, m: Cache)
    requires UniqueKeys(chain) && HoldsBut(chain, j, m)
    ensures Holds(chain, m[chain[j].key := chain[j].Value()])
  {
  }

  lemma UniqueNodes(chain: seq<Node>)
    requires UniqueKeys(chain)
    ensures forall i, j :: 0 <= i < j < |chain| ==> chain[i] != chain[j]
  {
  }

  // ---- The whole table ----

  // The entries of bucket b are the map's entries for the keys of that bucket.
  ghost predicate Agree(f: Transform, b: nat, e: Cache, m: Cache) {
    forall k :: (k in e <==> k in m && BucketOf(f, k) == b) && (k in e ==> e[k] == m[k])
  }

  // Two maps that differ at one key at most.
  ghost predicate SameBut(m: Cache, m': Cache, key: Text) {
    forall k :: k != key ==> (k in m <==> k in m') && (k in m ==> m[k] == m'[k])
  }

  ghost predicate SameAt(m: Cache, m': Cache, key: Text) {
    (key in m <==> key in m') && (key in m ==> m[key] == m'[key])
  }

  ghost predicate AllAgree(f: Transform, parts: seq<Cache>, m: Cache) {
    |parts| == HASHSIZE && forall b :: 0 <= b < HASHSIZE ==> Agree(f, b, parts[b], m)
  }

  lemma AgreeUpdated(f: Transform, parts: seq<Cache>, m: Cache, e: Cache, m': Cache, key: Text)
    requires AllAgree(f, parts, m)
    requires SameBut(parts[BucketOf(f, key)], e, key) && SameBut(m, m', key) && SameAt(e, m', key)
    ensures AllAgree(f, parts[BucketOf(f, key) := e], m')
  {
    hide BucketOf;
    var u := parts[BucketOf(f, key) := e];
    forall c | 0 <= c < HASHSIZE
      ensures Agree(f, c, u[c], m')
    {
      assert Agree(f, c, parts[c], m);
    }
  }

  lemma PartOfKey(f: Transform, parts: seq<Cache>, m: Cache, key: Text)
    requires AllAgree(f, parts, m)
    ensures SameAt(parts[BucketOf(f, key)], m, key)
  {
    hide BucketOf;
    assert Agree(f, BucketOf(f, key), parts[BucketOf(f, key)], m);
  }

  // Every operation acts on one key only, by what the map has there.
  lemma OperationsAreLocal(e: Cache, m: Cache, key: Text, vals: seq<Text>, now: Time, x: int)
    requires SameAt(e, m, key)
    ensures SameBut(m, Get(m, key, now, x).0, key) && SameBut(m, Add(m, key, vals, now, x), key)
    ensures SameBut(e, Get(e, key, now, x).0, key) && SameBut(e, Add(e, key, vals, now, x), key)
    ensures SameAt(Get(e, key, now, x).0, Get(m, key, now, x).0, key)
    ensures Get(e, key, now, x).1 == Get(m, key, now, x).1
    ensures SameAt(Add(e, key, vals, now, x), Add(m, key, vals, now, x), key)
  {
  }

  // The buckets own their chains, and no two share a node.
  ghost predicate Owned(cells: seq<Bucket>, repr: set<object>)
    reads repr
  {
    && (forall b :: 0 <= b < |cells| ==> cells[b] in repr && cells[b].repr <= repr && cells[b].Valid())
    && (forall b, c :: 0 <= b < c < |cells| ==> cells[b].repr !! cells[c].repr)
  }

  // memdb_add on one of the buckets.
  method AddInto(bucket: Bucket, key: Text, vals: seq<Text>, now: Time, timeout: int,
                 ghost cells: seq<Bucket>, ghost repr: set<object>, ghost b: nat)
      returns (ghost repr': set<object>)
    requires Owned(cells, repr) && b < |cells| && bucket == cells[b]
    modifies bucket.repr
    ensures Owned(cells, repr') && repr <= repr' && fresh(repr' - repr)
    ensures bucket.entries == CacheSpec.Add(old(bucket.entries), key, vals, now, timeout)
    ensures forall c :: 0 <= c < |cells| && c != b ==> cells[c].entries == old(cells[c].entries)
  {
    hide Bucket.Valid;
    assert bucket in bucket.repr;
    bucket.Add(key, vals, now, timeout);
    repr' := repr + bucket.repr;
  }

  // memdb_get on one of the buckets, with the others as they were.
  method GetFrom(bucket: Bucket, key: Text, now: Time, mtime: Time,
                 ghost cells: seq<Bucket>, ghost repr: set<object>, ghost b: nat)
      returns (r: Option<seq<Text>>)
    requires Owned(cells, repr) && b < |cells| && bucket == cells[b]
    modifies bucket.repr
    ensures Owned(cells, repr)
    ensures (bucket.entries, r) == CacheSpec.Get(old(bucket.entries), key, now, mtime)
    ensures forall c :: 0 <= c < |cells| && c != b ==> cells[c].entries == old(cells[c].entries)
  {
    hide Bucket.Valid;
    assert bucket in bucket.repr;
    r := bucket.Get(key, now, mtime);
  }

  // memdb_upd and memdb_del on an entry of one of the buckets.
  method RefillIn(bucket: Bucket, p: Node, vals: seq<Text>, now: Time, ghost j: nat,
                  ghost cells: seq<Bucket>, ghost repr: set<object>, ghost b: nat)
    requires Owned(cells, repr) && b < |cells| && bucket == cells[b]
    requires j < |bucket.chain| && p == bucket.chain[j]
    modifies bucket.repr
    ensures Owned(cells, repr)
    ensures bucket.entries == old(bucket.entries)[p.key := Entry(vals, now, C_UPD, None)]
    ensures forall c :: 0 <= c < |cells| && c != b ==> cells[c].entries == old(cells[c].entries)
  {
    hide Bucket.Valid;
    assert bucket in bucket.repr;
    bucket.Refill(p, vals, now, j);
  }

  method DeleteIn(bucket: Bucket, p: Node, ghost j: nat,
                  ghost cells: seq<Bucket>, ghost repr: set<object>, ghost b: nat)
    requires Owned(cells, repr) && b < |cells| && bucket == cells[b]
    requires j < |bucket.chain| && p == bucket.chain[j] && p.key in bucket.entries
    modifies bucket.repr
    ensures Owned(cells, repr)
    ensures bucket.entries ==
            old(bucket.entries)[p.key := old(bucket.entries)[p.key].(vals := [], kind := C_DEL, typeval := None)]
    ensures forall c :: 0 <= c < |cells| && c != b ==> cells[c].entries == old(cells[c].entries)
  {
    hide Bucket.Valid;
    assert bucket in bucket.repr;
    bucket.MarkDeleted(p, j);
  }

  class MemDbT {
    const transform: Transform
    const null_cache_timeout: int
    var memdb: array<Bucket?>
    ghost var cells: seq<Bucket>
    ghost var parts: seq<Cache>
    ghost var model: Cache
    ghost var repr: set<object>

    // parts are the entries bucket by bucket; the map is all of them.
    ghost predicate Valid()
      reads this, memdb, repr
      ensures Valid() ==> this !in repr && memdb !in repr
    {
      && this !in repr && memdb !in repr
      && memdb.Length == HASHSIZE == |cells| == |parts|
      && (forall b :: 0 <= b < HASHSIZE ==> memdb[b] == cells[b])
      && Owned(cells, repr)
      && (forall b :: 0 <= b < HASHSIZE ==> cells[b].entries == parts[b])
      && AllAgree(transform, parts, model)
    }

    // memdb_new
    constructor (f: Transform, timeout: int)
      ensures Valid() && fresh(repr) && fresh(memdb)
      ensures transform == f && null_cache_timeout == timeout && model == map[]
    {
      hide BucketOf, Owned;
      transform, null_cache_timeout := f, timeout;
      var newdb, newCells, newRepr := NewCells();
      memdb, cells, repr := newdb, newCells, newRepr;
      parts := seq(HASHSIZE, _ => map[]);
      model := map[];
    }

    method Get(key: Text, now: Time, mtime: Time) returns (r: Option<seq<Text>>)
      requires Valid() && |key| < WORD
      modifies this, repr
      ensures Valid() && memdb == old(memdb) && repr == old(repr)
      ensures (model, r) == CacheSpec.Get(old(model), key, now, mtime)
    {
      hide BucketOf, Bucket.Valid, AllAgree, SameBut, SameAt;
      var hkey := HashKey(transform, key);
      PartOfKey(transform, parts, model, key);
      OperationsAreLocal(parts[hkey], model, key, [], now, mtime);
      r := GetFrom(memdb[hkey], key, now, mtime, cells, repr, hkey);
      hide Owned;
      ghost var model' := CacheSpec.Get(model, key, now, mtime).0;
      AgreeUpdated(transform, parts, model, cells[hkey].entries, model', key);
      parts, model := parts[hkey := cells[hkey].entries], model';
    }

    method Add(key: Text, vals: seq<Text>, now: Time)
      requires Valid() && |key| < WORD
      modifies this, repr
      ensures Valid() && memdb == old(memdb) && fresh(repr - old(repr))
      ensures model == CacheSpec.Add(old(model), key, vals, now, null_cache_timeout)
    {
      hide BucketOf, Bucket.Valid, AllAgree, SameBut, SameAt;
      var hkey := HashKey(transform, key);
      PartOfKey(transform, parts, model, key);
      OperationsAreLocal(parts[hkey], model, key, vals, now, null_cache_timeout);
      repr := AddInto(memdb[hkey], key, vals, now, null_cache_timeout, cells, repr, hkey);
      hide Owned;
      ghost var model' := CacheSpec.Add(model, key, vals, now, null_cache_timeout);
      AgreeUpdated(transform, parts, model, cells[hkey].entries, model', key);
      parts, model := parts[hkey := cells[hkey].entries], model';
    }

    // The entry with a key, with its place in its bucket.
    method Find(key: Text) returns (hkey: nat, p: Node?, ghost j: nat)
      requires Valid() && |key| < WORD
      ensures hkey == BucketOf(transform, key) < HASHSIZE
      ensures p == null <==> key !in model
      ensures p != null ==> j < |cells[hkey].chain| && p == cells[hkey].chain[j] && p.key == key
    {
      hide BucketOf, Bucket.Valid, AllAgree;
      hkey := HashKey(transform, key);
      PartOfKey(transform, parts, model, key);
      var q;
      p, q, j := memdb[hkey].Find(key);
    }

    method Update(key: Text, vals: seq<Text>, now: Time, fieldcount: int) returns (ok: bool)
      requires Valid() && |key| < WORD
      modifies this, repr
      ensures Valid() && memdb == old(memdb) && fresh(repr - old(repr))
      ensures (model, ok) == CacheSpec.Update(old(model), key, vals, now, null_cache_timeout, fieldcount)
    {
      hide BucketOf;
      if |vals| != fieldcount {
        return false;
      }
      var hkey, p, j := Find(key);
      hide Valid;
      if p == null {
        Add(key, vals, now);
      } else {
        Refill(hkey, p, vals, now, j);
      }
      return true;
    }

    method Refill(hkey: nat, p: Node, vals: seq<Text>, now: Time, ghost j: nat)
      requires Valid() && hkey == BucketOf(transform, p.key)
      requires j < |cells[hkey].chain| && p == cells[hkey].chain[j]
      modifies this, repr
      ensures Valid() && memdb == old(memdb) && repr == old(repr)
      ensures model == old(model)[p.key := Entry(vals, now, C_UPD, None)]
    {
      hide BucketOf, Bucket.Valid, AllAgree;
      RefillIn(memdb[hkey], p, vals, now, j, cells, repr, hkey);
      hide Owned;
      ghost var model' := model[p.key := Entry(vals, now, C_UPD, None)];
      AgreeUpdated(transform, parts, model, cells[hkey].entries, model', p.key);
      parts, model := parts[hkey := cells[hkey].entries], model';
    }

    // memdb_del as its map effect; a key that is not there is added first.
    method Delete(key: Text, now: Time)
      requires Valid() && |key| < WORD
      modifies this, repr
      ensures Valid() && memdb == old(memdb) && fresh(repr - old(repr))
      ensures model == CacheSpec.Delete(old(model), key, now, null_cache_timeout)
    {
      hide Valid;
      var found := MarkDeleted(key);
      if !found {
        Add(key, [], now);
        found := MarkDeleted(key);
      }
    }

    method MarkDeleted(key: Text) returns (found: bool)
      requires Valid() && |key| < WORD
      modifies this, repr
      ensures Valid() && memdb == old(memdb) && repr == old(repr)
      ensures found <==> key in old(model)
      ensures !found ==> model == old(model)
      ensures found ==>
                model == old(model)[key := old(model)[key].(vals := [], kind := C_DEL, typeval := None)]
    {
      hide BucketOf, Bucket.Valid, AllAgree;
      var hkey, p, j := Find(key);
      if p == null {
        return false;
      }
      PartOfKey(transform, parts, model, key);
      DeleteIn(memdb[hkey], p, j, cells, repr, hkey);
      hide Owned;
      ghost var model' := model[key := model[key].(vals := [], kind := C_DEL, typeval := None)];
      AgreeUpdated(transform, parts, model, cells[hkey].entries, model', key);
      parts, model := parts[hkey := cells[hkey].entries], model';
      return true;
    }
  }

  lemma OwnedAppended(cells: seq<Bucket>, repr: set<object>, bucket: Bucket)
    requires Owned(cells, repr) && bucket.Valid() && bucket.repr !! repr
    ensures Owned(cells + [bucket], repr + bucket.repr)
  {
    hide Bucket.Valid;
    var u := cells + [bucket];
    assert forall b :: 0 <= b < |u| ==> u[b] == if b < |cells| then cells[b] else bucket;
  }

  method NewCells() returns (memdb: array<Bucket?>, ghost cells: seq<Bucket>, ghost repr: set<object>)
    ensures fresh(memdb) && fresh(repr) && memdb !in repr
    ensures memdb.Length == HASHSIZE == |cells|
    ensures forall b :: 0 <= b < HASHSIZE ==> memdb[b] == cells[b] && cells[b].entries == map[]
    ensures Owned(cells, repr)
  {
    memdb := new Bucket?[HASHSIZE];
    cells, repr := [], {};
    for i := 0 to HASHSIZE
      invariant memdb !in repr && fresh(repr) && |cells| == i
      invariant forall b :: 0 <= b < i ==> memdb[b] == cells[b] && cells[b].entries == map[]
      invariant Owned(cells, repr)
    {
      hide Bucket.Valid, Owned;
      var bucket := new Bucket();
      memdb[i] := bucket;
      OwnedAppended(cells, repr, bucket);
      cells := cells + [bucket];
      repr := repr + bucket.repr;
    }
  }
}
