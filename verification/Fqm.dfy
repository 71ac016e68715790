// The fallthrough queue of server/fqm.c: a linked list of requests from sreq
// to ereq, changed in place under the queue lock.
module Fqm {
  import opened Bytes

  // request_t; the handler is always the fallthrough one.
  class Request {
    const sock: int
    const reqid: Short
    const req: Text
    var next: Request?

    constructor (sock: int, reqid: Short, req: Text)
      ensures this.sock == sock && this.reqid == reqid && this.req == req
    {
      this.sock, this.reqid, this.req := sock, reqid, req;
      next := null;
    }
  }

  ghost function Successor(items: seq<Request>, i: nat): Request? {
    if i + 1 < |items| then items[i + 1] else null
  }

  class FqmT {
    var sreq: Request?
    var ereq: Request?
    var nitems: int
    const maxitems: int
    ghost var items: seq<Request>

    // The list from sreq holds exactly the items, in order.  ereq is the last
    // of them, and means nothing while the queue is empty.
    ghost predicate Valid()
      reads this, items
    {
      && nitems == |items|
      && (forall i, j :: 0 <= i < j < |items| ==> items[i] != items[j])
      && sreq == (if items == [] then null else items[0])
      && (forall i {:trigger items[i].next} :: 0 <= i < |items| ==> items[i].next == Successor(items, i))
      && (items != [] ==> ereq == items[|items| - 1])
    }

    constructor (maxitems: int)
      ensures Valid() && items == [] && this.maxitems == maxitems
    {
      sreq, ereq := null, null;
      nitems, items := 0, [];
      this.maxitems := maxitems;
    }

    // The check of fqm_push, made before the lock is taken.
    method Full() returns (full: bool)
      requires Valid()
      ensures full <==> |items| == maxitems
    {
      full := nitems == maxitems;
    }

    // The critical section of fqm_push.
    method Append(req: Request)
      requires Valid() && req !in items
      modifies this, req, items
      ensures Valid() && items == old(items) + [req]
    {
      req.next := null;
      if sreq == null {
        sreq := req;
      } else {
        ereq.next := req;
      }
      ereq := req;
      nitems := nitems + 1;
      items := items + [req];
    }

    // fqm_push with no other pusher in flight.
    method Push(req: Request) returns (rc: int)
      requires Valid() && req !in items
      modifies this, req, items
      ensures Valid()
      ensures rc == -1 <==> |old(items)| == maxitems
      ensures items == if rc == -1 then old(items) else old(items) + [req]
      ensures rc == 0 || rc == -1
    {
      var full := Full();
      if full {
        return -1;
      }
      Append(req);
      return 0;
    }

    // What fqm_pop does once it has the lock and any wait is over.
    method Take() returns (p: Request?)
      requires Valid()
      modifies this, items
      ensures Valid()
      ensures p == null <==> old(items) == []
      ensures p != null ==> p == old(items)[0] && items == old(items)[1..] && p.next == null
      ensures p == null ==> items == []
    {
      p := sreq;
      if p == null {
        return;
      }
      ghost var was := items;
      sreq := sreq.next;
      nitems := nitems - 1;
      items := items[1..];
      p.next := null;
      assert forall i :: 0 <= i < |items| ==> items[i] == was[i + 1] && Successor(items, i) == Successor(was, i + 1);
    }
  }
}
