/**
 The channel of connectors. Sending to a full channel and receiving from an empty one would
 block; here they are ruled out by preconditions, which TaskPool shows to hold in every run.
 */
module ConnectorPool {

  type Conn = nat

  /** The connectors of the databases 0 to n - 1. */
  function Conns(n: nat): (conns: seq<Conn>)
    ensures |conns| == n && forall i :: 0 <= i < n ==> conns[i] == i
  {
    seq(n, i => i)
  }

  class Channel {
    const capacity: nat
    var conns: seq<Conn>
    var closed: seq<Conn>     // the connectors closed so far

    constructor (capacity: nat)
      ensures this.capacity == capacity && conns == closed == []
    {
      this.capacity := capacity;
      conns, closed := [], [];
    }

    ghost predicate Valid() reads this {
      |conns| <= capacity
    }

    method BackToPool(conn: Conn)
      requires Valid() && |conns| < capacity
      modifies this`conns
      ensures Valid() && conns == old(conns) + [conn]
    {
      conns := conns + [conn];
    }

    method WaitForFree() returns (conn: Conn)
      requires Valid() && conns != []
      modifies this`conns
      ensures Valid() && [conn] + conns == old(conns)
    {
      conn := conns[0];
      conns := conns[1..];
    }

    /** Takes out and closes `n` connectors, in order. */
    method CloseSome(n: nat)
      requires Valid() && n <= |conns|
      modifies this`conns, this`closed
      ensures Valid() && conns == old(conns)[n..] && closed == old(closed) + old(conns)[..n]
    {
      for i := 0 to n
        invariant Valid() && conns == old(conns)[i..] && closed == old(closed) + old(conns)[..i]
      {
        var conn := WaitForFree();
        closed := closed + [conn];
      }
    }

    /** The channel must hold every connector, or this would wait for ever. */
    method Close()
      requires Valid() && |conns| == capacity
      modifies this`conns, this`closed
      ensures conns == [] && closed == old(closed) + old(conns)
    {
      CloseSome(capacity);
      assert old(conns)[..capacity] == old(conns);
    }
  }

  /**
   Filling a new pool. If a connection fails there is no pool: one runner closes the connections
   already made, the other leaves them open.
   */
  method NewPool(postgres: bool, threadNum: nat, connects: nat -> bool) returns (ok: bool, pool: Channel)
    ensures fresh(pool) && pool.capacity == threadNum && pool.Valid()
    ensures ok <==> forall i :: 0 <= i < threadNum ==> connects(i)
    ensures ok ==> pool.conns == Conns(threadNum) && pool.closed == []
    ensures !ok && postgres ==>
              pool.conns == [] && |pool.closed| < threadNum && !connects(|pool.closed|)
                  && pool.closed == Conns(|pool.closed|)
    ensures !ok && !postgres ==>
              pool.closed == [] && |pool.conns| < threadNum && !connects(|pool.conns|)
                  && pool.conns == Conns(|pool.conns|)
  {
    pool := new Channel(threadNum);
    for i := 0 to threadNum
      invariant fresh(pool) && pool.Valid() && pool.conns == Conns(i) && pool.closed == []
      invariant forall j :: 0 <= j < i ==> connects(j)
    {
      if !connects(i) {
        if postgres {
          pool.CloseSome(i);
          assert Conns(i)[..i] == Conns(i);
        }
        return false, pool;
      }
      pool.BackToPool(i);
    }
    ok := true;
  }
}
