// Runs of cache operations: what a client that updated a key can rely on.
module CacheRuns {
  import opened Bytes
  import opened Wrappers
  import opened CacheSpec

  // One operation, with the clock and what the loaded database file says: its
  // modification time and its number of fields.
  datatype Op =
    | OpGet(key: Text, now: Time, mtime: Time)
    | OpAdd(key: Text, vals: seq<Text>, now: Time)
    | OpUpdate(key: Text, vals: seq<Text>, now: Time, fieldcount: int)
    | OpDelete(key: Text, now: Time)

  function Step(m: Cache, op: Op, timeout: int): Cache {
    match op
    case OpGet(key, now, mtime) => Get(m, key, now, mtime).0
    case OpAdd(key, vals, now) => Add(m, key, vals, now, timeout)
    case OpUpdate(key, vals, now, fieldcount) => Update(m, key, vals, now, timeout, fieldcount).0
    case OpDelete(key, now) => Delete(m, key, now, timeout)
  }

  function Run(m: Cache, ops: seq<Op>, timeout: int): Cache
    decreases |ops|
  {
    if ops == [] then m else Run(Step(m, ops[0], timeout), ops[1..], timeout)
  }

  // No later update of the key succeeds, and it is not deleted; gets of it may
  // happen, and so may adds, however late their fallthrough comes back.
  ghost predicate LeftAlone(ops: seq<Op>, key: Text) {
    forall i :: 0 <= i < |ops| && ops[i].key == key ==>
      ops[i].OpGet? || ops[i].OpAdd? || (ops[i].OpUpdate? && |ops[i].vals| != ops[i].fieldcount)
  }

  // The database has not been replaced after time t when the key is asked for.
  ghost predicate NoNewerDatabase(ops: seq<Op>, key: Text, t: Time) {
    forall i :: 0 <= i < |ops| && ops[i].key == key && ops[i].OpGet? ==> ops[i].mtime <= t
  }

  // The fallthrough has not answered for the key.
  ghost predicate NotAdded(ops: seq<Op>, key: Text) {
    forall i :: 0 <= i < |ops| && ops[i].key == key ==> !ops[i].OpAdd?
  }

  lemma {:induction false} UpdateSticks(m: Cache, ops: seq<Op>, key: Text, vals: seq<Text>, t: Time, timeout: int)
    requires key in m && m[key] == Entry(vals, t, C_UPD, None)
    requires LeftAlone(ops, key) && NoNewerDatabase(ops, key, t)
    ensures key in Run(m, ops, timeout) && Run(m, ops, timeout)[key] == Entry(vals, t, C_UPD, None)
    decreases |ops|
  {
    if ops != [] {
      var m' := Step(m, ops[0], timeout);
      assert key in m' && m'[key] == m[key];
      UpdateSticks(m', ops[1..], key, vals, t, timeout);
    }
  }

  lemma {:induction false} AbsentSticks(m: Cache, ops: seq<Op>, key: Text, t: Time, timeout: int)
    requires key in m ==> m[key].kind == C_UPD && m[key].updTime == t
    requires LeftAlone(ops, key) && NotAdded(ops, key)
    ensures key in Run(m, ops, timeout) ==> Run(m, ops, timeout)[key].kind == C_UPD && Run(m, ops, timeout)[key].updTime == t
    decreases |ops|
  {
    if ops != [] {
      // Only a failed update or a get can concern the key.
      if ops[0].key == key && ops[0].OpUpdate? {
        assert Step(m, ops[0], timeout) == m;
      }
      AbsentSticks(Step(m, ops[0], timeout), ops[1..], key, t, timeout);
    }
  }

  // After an update at time t that succeeds, whatever else happens, every get
  // of the key returns the values of the update until the database is newer
  // than t, and then misses unless a fallthrough has added the key again.
  lemma GetAfterUpdate(m: Cache, ops: seq<Op>, key: Text, vals: seq<Text>, t: Time,
                       now: Time, mtime: Time, timeout: int, fieldcount: int)
    requires |vals| == fieldcount > 0
    requires LeftAlone(ops, key) && NoNewerDatabase(ops, key, mtime)
    ensures Update(m, key, vals, t, timeout, fieldcount).1
    ensures var after := Run(Update(m, key, vals, t, timeout, fieldcount).0, ops, timeout);
            && (mtime <= t ==> Get(after, key, now, mtime).1 == Some(vals))
            && (mtime > t && NotAdded(ops, key) ==> Get(after, key, now, mtime).1 == None)
  {
    var start := Update(m, key, vals, t, timeout, fieldcount).0;
    if key in m && !Replaceable(m[key]) {
      assert start[key] == Entry(vals, t, C_UPD, None);
    }
    if mtime <= t {
      UpdateSticks(start, ops, key, vals, t, timeout);
    } else if NotAdded(ops, key) {
      AbsentSticks(start, ops, key, t, timeout);
    }
  }

  // The entry is one that nobody's update put there: an empty answer, or a deletion.
  predicate Free(m: Cache, key: Text) {
    key in m ==> m[key].kind == C_EXPIRE || m[key].kind == C_DEL
  }

  // An answer of the fallthrough that finds the key free is kept like an update.
  lemma GetAfterAdd(m: Cache, ops: seq<Op>, key: Text, vals: seq<Text>, t: Time,
                    now: Time, mtime: Time, timeout: int)
    requires vals != [] && Free(m, key)
    requires LeftAlone(ops, key) && NoNewerDatabase(ops, key, mtime) && mtime <= t
    ensures Get(Run(Add(m, key, vals, t, timeout), ops, timeout), key, now, mtime).1 == Some(vals)
  {
    UpdateSticks(Add(m, key, vals, t, timeout), ops, key, vals, t, timeout);
  }

  // The clock does not run backwards.
  ghost predicate AskedBefore(ops: seq<Op>, key: Text, now: Time) {
    forall i :: 0 <= i < |ops| && ops[i].key == key && ops[i].OpGet? ==> ops[i].now <= now
  }

  // An empty answer may be thrown out once it has expired, and not before.
  lemma {:induction false} ExpiringSticks(m: Cache, ops: seq<Op>, key: Text, e: Entry, now: Time, timeout: int)
    requires e.kind == C_EXPIRE && e.typeval.Some? && (key in m ==> m[key] == e)
    requires now < e.typeval.value ==> key in m
    requires LeftAlone(ops, key) && NotAdded(ops, key) && AskedBefore(ops, key, now)
    ensures key in Run(m, ops, timeout) ==> Run(m, ops, timeout)[key] == e
    ensures now < e.typeval.value ==> key in Run(m, ops, timeout)
    decreases |ops|
  {
    if ops != [] {
      var u := Step(m, ops[0], timeout);
      if ops[0].key == key && ops[0].OpUpdate? {
        assert u == m;
      }
      ExpiringSticks(u, ops[1..], key, e, now, timeout);
    }
  }

  // It is served until it expires, and not after.
  lemma GetAfterEmptyAdd(m: Cache, ops: seq<Op>, key: Text, t: Time, now: Time, mtime: Time, timeout: int)
    requires Free(m, key)
    requires LeftAlone(ops, key) && NotAdded(ops, key) && AskedBefore(ops, key, now)
    ensures Get(Run(Add(m, key, [], t, timeout), ops, timeout), key, now, mtime).1 ==
            if now < t + timeout then Some([]) else None
  {
    ExpiringSticks(Add(m, key, [], t, timeout), ops, key, NewEntry([], t, timeout), now, timeout);
  }

  // ---- Deletion ----

  // Nothing but gets of the key, and updates of it that fail.
  ghost predicate OnlyAsked(ops: seq<Op>, key: Text) {
    LeftAlone(ops, key) && NotAdded(ops, key)
  }

  lemma {:induction false} DeletionSticks(m: Cache, ops: seq<Op>, key: Text, timeout: int)
    requires key in m && m[key].kind == C_DEL && OnlyAsked(ops, key)
    ensures key in Run(m, ops, timeout) && Run(m, ops, timeout)[key] == m[key]
    decreases |ops|
  {
    if ops != [] {
      var u := Step(m, ops[0], timeout);
      assert key in u && u[key] == m[key];
      DeletionSticks(u, ops[1..], key, timeout);
    }
  }

  lemma DeletedIsEmpty(m: Cache, ops: seq<Op>, key: Text, now: Time, mtime: Time, timeout: int)
    requires key in m && m[key].kind == C_DEL && OnlyAsked(ops, key)
    ensures var after := Run(m, ops, timeout); Get(after, key, now, mtime) == (after, Some([]))
  {
    DeletionSticks(m, ops, key, timeout);
  }

  // A deleted key is found, without values, however long ago it was deleted and
  // however new the database is; but the next answer of the fallthrough replaces it.
  lemma GetAfterDelete(m: Cache, ops: seq<Op>, key: Text, t: Time, now: Time, mtime: Time, timeout: int,
                       vals: seq<Text>, late: Time)
    requires OnlyAsked(ops, key)
    ensures var after := Run(Delete(m, key, t, timeout), ops, timeout);
            && Get(after, key, now, mtime) == (after, Some([]))
            && (vals != [] && mtime <= late ==> Get(Add(after, key, vals, late, timeout), key, now, mtime).1 == Some(vals))
  {
    DeletionSticks(Delete(m, key, t, timeout), ops, key, timeout);
  }

  // ---- A miss ----

  lemma {:induction false} AbsenceSticks(m: Cache, ops: seq<Op>, key: Text, timeout: int)
    requires key !in m && OnlyAsked(ops, key)
    ensures key !in Run(m, ops, timeout)
    decreases |ops|
  {
    if ops != [] {
      AbsenceSticks(Step(m, ops[0], timeout), ops[1..], key, timeout);
    }
  }

  // A get that misses leaves the key out of the cache, so that the answer of the
  // fallthrough it leads to is kept and served, whatever was there before.
  lemma MissThenAdd(m: Cache, key: Text, asked: Time, before: Time, ops: seq<Op>, vals: seq<Text>, t: Time,
                    more: seq<Op>, now: Time, mtime: Time, timeout: int)
    requires Get(m, key, asked, before).1 == None && OnlyAsked(ops, key)
    requires vals != [] && LeftAlone(more, key) && NoNewerDatabase(more, key, mtime) && mtime <= t
    ensures var missed := Run(Get(m, key, asked, before).0, ops, timeout);
            && key !in missed
            && Get(Run(Add(missed, key, vals, t, timeout), more, timeout), key, now, mtime).1 == Some(vals)
  {
    var missed := Run(Get(m, key, asked, before).0, ops, timeout);
    AbsenceSticks(Get(m, key, asked, before).0, ops, key, timeout);
    assert NoNewerDatabase(more, key, t);
    GetAfterAdd(missed, more, key, vals, t, now, mtime, timeout);
  }

  // ---- Keys are apart ----

  function OpsOn(ops: seq<Op>, key: Text): seq<Op> {
    if ops == [] then []
    else (if ops[0].key == key then [ops[0]] else []) + OpsOn(ops[1..], key)
  }

  predicate SameFor(m: Cache, n: Cache, key: Text) {
    (key in m <==> key in n) && (key in m ==> m[key] == n[key])
  }

  // What the cache says of a key depends on what it said of it before and on the
  // operations on that key alone.
  lemma {:induction false} KeysAreApart(m: Cache, n: Cache, ops: seq<Op>, key: Text, timeout: int)
    requires SameFor(m, n, key)
    ensures SameFor(Run(m, ops, timeout), Run(n, OpsOn(ops, key), timeout), key)
    decreases |ops|
  {
    if ops != [] {
      var u := Step(m, ops[0], timeout);
      if ops[0].key == key {
        var on := OpsOn(ops, key);
        assert on[0] == ops[0] && on[1..] == OpsOn(ops[1..], key);
        KeysAreApart(u, Step(n, ops[0], timeout), ops[1..], key, timeout);
      } else {
        assert OpsOn(ops, key) == OpsOn(ops[1..], key);
        KeysAreApart(u, n, ops[1..], key, timeout);
      }
    }
  }
}
