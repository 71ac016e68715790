// The reader/writer lock of server/thread.c.  Each locking call is split into
// its critical sections at pthread_cond_wait: what runs under the mutex before
// the wait, and what runs after it returns.
module RwMutex {

  // The fields of rw_mutex_t that the critical sections read and write.
  datatype Lock = Lock(state: int, blockedWriters: int)

  const UNLOCKED := Lock(0, 0)

  // What a critical section does to the condition variables.
  datatype Signal = NoSignal | SignalWriter | BroadcastReaders

  const EINVAL := 22

  // ---- The critical sections as functions ----

  predicate ReaderMustWait(l: Lock) {
    l.blockedWriters != 0 || l.state < 0
  }

  // The test of the read loop, on entry and after every wait: either the lock
  // is taken, or the caller waits and nothing changes.
  function ReadTry(l: Lock): (Lock, bool) {
    if ReaderMustWait(l) then (l, false) else (l.(state := l.state + 1), true)
  }

  // The test of the write loop; a writer that waits is counted first.
  function WriteTry(l: Lock): (Lock, bool) {
    if l.state != 0 then (l.(blockedWriters := l.blockedWriters + 1), false)
    else (l.(state := -1), true)
  }

  // After a wait the writer is uncounted, then tests again.
  function WriteResume(l: Lock): (Lock, bool) {
    WriteTry(l.(blockedWriters := l.blockedWriters - 1))
  }

  function Unlock(l: Lock): (Lock, Signal, int) {
    if l.state > 0 then
      (l.(state := l.state - 1), if l.state == 1 && l.blockedWriters != 0 then SignalWriter else NoSignal, 0)
    else if l.state < 0 then
      (l.(state := 0), if l.blockedWriters != 0 then SignalWriter else BroadcastReaders, 0)
    else (l, NoSignal, EINVAL)
  }

  // ---- The same, as the code runs them ----

  class RwMutexT {
    var state: int
    var blocked_writers: int

    function Value(): Lock
      reads this
    {
      Lock(state, blocked_writers)
    }

    // rw_mutex_new
    constructor ()
      ensures Value() == UNLOCKED
    {
      state := 0;
      blocked_writers := 0;
    }

    method TryRead() returns (acquired: bool)
      modifies this
      ensures (Value(), acquired) == ReadTry(old(Value()))
    {
      if blocked_writers != 0 || state < 0 {
        return false;
      }
      state := state + 1;
      return true;
    }

    method TryWrite() returns (acquired: bool)
      modifies this
      ensures (Value(), acquired) == WriteTry(old(Value()))
    {
      if state != 0 {
        blocked_writers := blocked_writers + 1;
        return false;
      }
      state := -1;
      return true;
    }

    method ResumeWrite() returns (acquired: bool)
      modifies this
      ensures (Value(), acquired) == WriteResume(old(Value()))
    {
      blocked_writers := blocked_writers - 1;
      acquired := TryWrite();
    }

    method ReleaseLock() returns (signal: Signal, rc: int)
      modifies this
      ensures (Value(), signal, rc) == Unlock(old(Value()))
    {
      signal, rc := NoSignal, 0;
      if state > 0 {
        state := state - 1;
        if state == 0 && blocked_writers != 0 {
          signal := SignalWriter;
        }
      } else if state < 0 {
        state := 0;
        if blocked_writers != 0 {
          signal := SignalWriter;
        } else {
          signal := BroadcastReaders;
        }
      } else {
        rc := EINVAL;
      }
    }
  }
}
