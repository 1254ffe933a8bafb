/** The connection pool and one provider call at a time, on mutable connections
    (backend/pool.go and backend/provider.go). What the network does is passed in. */
module BackendObject {
  class Conn {
    var open: bool

    constructor ()
      ensures open
    {
      open := true;
    }

    method Close()
      modifies this
      ensures !open
    {
      open := false;
    }
  }

  /** The outcome of each network operation a call can make. */
  datatype Network = Network(dial: bool, request: bool, transfer: bool, ping: bool)

  class Pool {
    const capacity: nat
    var conns: seq<Conn>

    /** The pool holds distinct open connections, no more than its capacity. */
    ghost predicate Valid()
      reads this, conns
    {
      && |conns| <= capacity
      && (forall i :: 0 <= i < |conns| ==> conns[i].open)
      && (forall i, j :: 0 <= i < j < |conns| ==> conns[i] != conns[j])
    }

    constructor (capacity: nat)
      ensures Valid() && conns == [] && this.capacity == capacity
    {
      this.capacity := capacity;
      conns := [];
    }

    /** The oldest pooled connection, or a new one if the pool is empty. */
    method Get(dial: bool) returns (c: Conn?)
      requires Valid()
      modifies this
      ensures Valid() && (c != null ==> c.open && c !in conns)
      ensures if old(conns) != [] then c == old(conns)[0] && conns == old(conns)[1..]
              else conns == [] && (if dial then c != null && fresh(c) else c == null)
    {
      if |conns| > 0 {
        c := conns[0];
        conns := conns[1..];
      } else if dial {
        c := new Conn();
      } else {
        c := null;
      }
    }

    /** Back into the pool, or closed if the pool is full; nothing happens to no connection. */
    method Put(c: Conn?)
      requires Valid() && (c != null ==> c.open && c !in conns)
      modifies this, c
      ensures Valid() && (c != null ==> c.open == (|old(conns)| < capacity))
      ensures conns == if c != null && c.open then old(conns) + [c] else old(conns)
    {
      if c == null {
        return;
      }
      if |conns| < capacity {
        conns := conns + [c];
      } else {
        c.Close();
      }
    }

    /** After a failed request: keep the connection only if it still answers. */
    method Recover(c: Conn, ping: bool)
      requires Valid() && c.open && c !in conns
      modifies this, c
      ensures Valid() && c.open == (ping && |old(conns)| < capacity)
      ensures conns == if c.open then old(conns) + [c] else old(conns)
    {
      if !ping {
        c.Close();
      } else {
        Put(c);
      }
    }

    /** What a call does to the pool: the connection it took, pooled or new, comes back as the
        last one or is closed; every other connection stays. */
    twostate predicate Settled(new taken: Conn?)
      reads this, conns, taken
    {
      if taken == null then old(conns) == [] && conns == []
      else
        && (if old(conns) != [] then taken == old(conns)[0] else fresh(taken))
        && conns == (if old(conns) == [] then [] else old(conns[1..])) + (if taken.open then [taken] else [])
    }

    /** `ReadFile`: the connection is returned whether or not the transfer succeeds. */
    method ReadFile(net: Network) returns (ok: bool, ghost taken: Conn?)
      requires Valid()
      modifies this, conns
      ensures Valid() && Settled(taken)
      ensures ok <==> taken != null && net.request && net.transfer
      ensures taken != null ==> (taken.open <==> (net.request || net.ping) && capacity >= 1)
    {
      var c := Get(net.dial);
      taken := c;
      if c == null {
        return false, taken;
      }
      if !net.request {
        Recover(c, net.ping);
        return false, taken;
      }
      ok := net.transfer;
      Put(c);
    }

    /** `ReadDir` and `Stat`: one request. */
    method ReadDirOrStat(net: Network) returns (ok: bool, ghost taken: Conn?)
      requires Valid()
      modifies this, conns
      ensures Valid() && Settled(taken)
      ensures ok <==> taken != null && net.request
      ensures taken != null ==> (taken.open <==> (net.request || net.ping) && capacity >= 1)
    {
      var c := Get(net.dial);
      taken := c;
      if c == null {
        return false, taken;
      }
      if !net.request {
        Recover(c, net.ping);
        return false, taken;
      }
      Put(c);
      ok := true;
    }
  }
}
