// The linked list of server/fqm.c under the steps of the pool: each critical
// section, run on the list, is one step of FqmProtocol, and the request a worker
// comes away with is the one its ticket stands for.
module FqmRun {
  import opened Fqm
  import opened FqmProtocol

  class SharedQueue {
    const fqm: FqmT
    ghost var pool: Pool
    // The accepted requests, by ticket.
    ghost var accepted: seq<Request>

    ghost predicate Valid()
      reads this, fqm, fqm.items
    {
      && fqm.Valid() && Inv(pool) && pool.maxitems == fqm.maxitems
      && |accepted| == pool.accepted
      && Named(pool.queue, fqm.items)
    }

    // The listed requests are those the queued tickets stand for.
    ghost predicate Named(queue: seq<Ticket>, items: seq<Request>)
      reads this
    {
      && |items| == |queue| == pool.nitems
      && forall i :: 0 <= i < |queue| ==> queue[i] < |accepted| && items[i] == accepted[queue[i]]
    }

    // fqm_new, with as many workers as items.
    constructor (maxitems: nat)
      ensures Valid() && fresh(fqm) && pool == Start(maxitems) && accepted == []
    {
      fqm := new FqmT(maxitems);
      pool, accepted := Start(maxitems), [];
      StartInv(maxitems);
      hide Inv;
    }

    // The check of fqm_push, without the lock.
    method CheckRoom(p: Id) returns (full: bool)
      requires Valid() && Enabled(pool, Check(p))
      modifies this`pool
      ensures Valid() && pool == Apply(old(pool), Check(p))
      ensures full <==> p !in pool.pushing
    {
      hide Inv;
      full := fqm.Full();
      StepKeepsInv(pool, Check(p));
      pool := Apply(pool, Check(p));
    }

    // The rest of fqm_push, under the lock.
    method PushLocked(p: Id, req: Request, ghost signalled: set<Id>)
      requires Valid() && Enabled(pool, Push(p, signalled)) && req !in fqm.items
      modifies this, fqm, fqm.items, req
      ensures Valid() && pool == Apply(old(pool), Push(p, signalled))
      ensures accepted == old(accepted) + [req]
    {
      hide Inv, FqmT.Valid;
      fqm.Append(req);
      StepKeepsInv(pool, Push(p, signalled));
      pool := Apply(pool, Push(p, signalled));
      accepted := accepted + [req];
    }

    // fqm_pop up to the wait, or to its end if there is a request.
    method PopLocked(w: Id) returns (req: Request?)
      requires Valid() && Enabled(pool, Pop(w))
      modifies this`pool, fqm, fqm.items
      ensures Valid() && pool == Apply(old(pool), Pop(w)) && TakenBy(w, req)
    {
      hide Inv;
      NotBusy(pool, w);
      StepKeepsInv(pool, Pop(w));
      if fqm.sreq == null {
        req := null;
      } else {
        req := fqm.Take();
      }
      hide FqmT.Valid;
      pool := Apply(pool, Pop(w));
    }

    // fqm_pop after the wait, which may have been woken for nothing.
    method ResumeLocked(w: Id) returns (req: Request?)
      requires Valid() && Enabled(pool, Resume(w))
      modifies this`pool, fqm, fqm.items
      ensures Valid() && pool == Apply(old(pool), Resume(w)) && TakenBy(w, req)
    {
      hide Inv, FqmT.Valid;
      NotBusy(pool, w);
      StepKeepsInv(pool, Resume(w));
      req := fqm.Take();
      pool := Apply(pool, Resume(w));
    }

    // The worker has its ticket's request, or none and no ticket.
    ghost predicate TakenBy(w: Id, req: Request?)
      reads this
    {
      if w in pool.busy then pool.busy[w] < |accepted| && req == accepted[pool.busy[w]] else req == null
    }

    // What happens away from the list: handlers that return, spurious wakeups.
    ghost method Elsewhere(e: Event)
      requires Valid() && Enabled(pool, e) && (e.Finish? || e.Spurious?)
      modifies this`pool
      ensures Valid() && pool == Apply(old(pool), e)
    {
      hide Inv, FqmT.Valid;
      StepKeepsInv(pool, e);
      pool := Apply(pool, e);
    }
  }

  lemma NotBusy(s: Pool, w: Id)
    requires Inv(s) && (w in s.ready || w in s.woken)
    ensures w !in s.busy
  {
  }
}
