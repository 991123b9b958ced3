/** The RPC server's cache and the client's retry loop as mutable objects, proved to do what module ReplayCache says. */
module RpcTransport {
  import opened Basics
  import opened ReplayCache

  class UnixRpcServer {
    const capacity: nat
    var cache: seq<Entry>           // least recently used first
    ghost var touches: seq<Entry>
    ghost var dispatched: seq<Request>

    constructor (capacity: nat)
      requires capacity >= 1
      ensures this.capacity == capacity
      ensures Abs() == ReplayCache.Empty && Faithful(capacity, Abs())
    {
      this.capacity := capacity;
      cache, touches, dispatched := [], [], [];
    }

    ghost function Abs(): State
      reads this
    {
      State(cache, touches, dispatched)
    }

    /** `answer` is what the service would respond if it were asked now. */
    method HandleRequest(q: Request, answer: Id) returns (response: Response)
      modifies this
      ensures (Abs(), response) == Handle(capacity, old(Abs()), q, answer)
    {
      var cached := Find(cache, q.id);
      if cached.Some? {
        if cached.value.content != q.content {
          return RequestIdReuse;
        }
        cache := Without(cache, q.id) + [cached.value];
        touches := touches + [cached.value];
        return cached.value.response;
      }
      response := Answered(answer);
      dispatched := dispatched + [q];
      var entry := Entry(q.id, q.content, response);
      touches := touches + [entry];
      cache := cache + [entry];
      ghost var full := cache;
      while |cache| > capacity
        invariant Newest(cache, capacity) == Newest(full, capacity)
        invariant touches == old(touches) + [entry] && dispatched == old(dispatched) + [q]
        decreases |cache|
      {
        cache := cache[1..];
      }
    }
  }

  class UnixRpcClient {
    /** One connection per attempt, until a response comes back. Others use the server between attempts. */
    method Call(server: UnixRpcServer, q: Request, attempts: seq<Attempt>) returns (response: Option<Response>)
      modifies server
      ensures (server.Abs(), response) == ReplayCache.Call(server.capacity, old(server.Abs()), q, attempts)
    {
      hide Handle, Run;
      for i := 0 to |attempts|
        invariant ReplayCache.Call(server.capacity, old(server.Abs()), q, attempts)
               == ReplayCache.Call(server.capacity, server.Abs(), q, attempts[i..])
      {
        assert attempts[i..][0] == attempts[i] && attempts[i..][1..] == attempts[i + 1..];
        ServeOthers(server, attempts[i].traffic);
        if attempts[i].arrives {
          var answered := server.HandleRequest(q, attempts[i].answer);
          if attempts[i].delivered {
            return Some(answered);
          }
        }
      }
      return None;
    }

    method ServeOthers(server: UnixRpcServer, traffic: seq<Op>)
      modifies server
      ensures server.Abs() == Run(server.capacity, old(server.Abs()), traffic)
    {
      hide Handle;
      for i := 0 to |traffic|
        invariant Run(server.capacity, old(server.Abs()), traffic) == Run(server.capacity, server.Abs(), traffic[i..])
      {
        assert traffic[i..][0] == traffic[i] && traffic[i..][1..] == traffic[i + 1..];
        var _ := server.HandleRequest(traffic[i].request, traffic[i].answer);
      }
    }
  }
}
