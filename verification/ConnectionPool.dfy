/** The relay's pool of upstream connections. */
module ConnectionPool {
  import opened Common

  /** A connection is known by its address. */
  type Connection = nat

  /** The connections waiting in a queue. */
  function Waiting(queue: seq<Connection>): set<Connection> {
    set c | c in queue
  }

  predicate NoneTwice(queue: seq<Connection>) {
    forall i, j | 0 <= i < j < |queue| :: queue[i] != queue[j]
  }

  /** The tracked connections are those out and those free, each once. */
  ghost predicate Tracked(uses: map<Connection, nat>, free: seq<Connection>, out: set<Connection>) {
    NoneTwice(free) && out !! Waiting(free) && uses.Keys == out + Waiting(free)
  }

  /** A free connection has a request left, and none has served too many. */
  ghost predicate Served(uses: map<Connection, nat>, free: seq<Connection>, limit: nat) {
    && (forall c | c in uses :: 1 <= uses[c] <= Max(1, limit))
    && (forall c | c in uses && c in free :: uses[c] < limit)
  }

  class HttpConnectionPool {
    var usesPerConn: map<Connection, nat>
    var freeConnections: seq<Connection>
    const maxRequestBeforeRecycling: nat
    const minConnections: nat
    /** The connections handed out and not yet returned, and the most there were at
        any one time. */
    ghost var out: set<Connection>
    ghost var peak: nat

    /** Besides, the pool is no larger than asked for, or than was needed at one
        time. */
    ghost predicate Valid()
      reads this
    {
      && Tracked(usesPerConn, freeConnections, out)
      && Served(usesPerConn, freeConnections, maxRequestBeforeRecycling)
      && |out| <= peak
      && |usesPerConn| <= Max(minConnections, peak)
    }

    constructor (requestAmount: nat, upstreamConnections: nat)
      ensures Valid() && usesPerConn == map[] && freeConnections == [] && out == {} && peak == 0
      ensures maxRequestBeforeRecycling == requestAmount && minConnections == upstreamConnections
    {
      usesPerConn, freeConnections, out, peak := map[], [], {}, 0;
      maxRequestBeforeRecycling, minConnections := requestAmount, upstreamConnections;
    }

    /** `newest` is the address of a connection made now; no tracked one has it. */
    method GetConnection(newest: Connection) returns (conn: Connection)
      requires Valid() && newest !in usesPerConn
      modifies this
      ensures Valid()
      ensures conn !in old(out) && out == old(out) + {conn} && peak == Max(old(peak), |out|)
      ensures var opens := old(freeConnections) == [] || |old(usesPerConn)| < minConnections;
              if opens then
                conn == newest && usesPerConn == old(usesPerConn)[newest := 1]
                && freeConnections == old(freeConnections)
              else
                conn == old(freeConnections)[0] && freeConnections == old(freeConnections)[1..]
                && conn in old(usesPerConn) && usesPerConn == old(usesPerConn)[conn := old(usesPerConn)[conn] + 1]
    {
      hide Tracked, Served, Max;
      if |freeConnections| == 0 || |usesPerConn| < minConnections {
        conn := newest;
        Opens(usesPerConn, freeConnections, out, conn, maxRequestBeforeRecycling);
        OpensWithin(usesPerConn, freeConnections, out, conn, minConnections, peak);
        usesPerConn := usesPerConn[conn := 1];
      } else {
        conn := freeConnections[0];
        Reuses(usesPerConn, freeConnections, out, maxRequestBeforeRecycling);
        ReusesWithin(usesPerConn, out, conn, minConnections, peak);
        freeConnections := freeConnections[1..];
        usesPerConn := usesPerConn[conn := usesPerConn[conn] + 1];
      }
      out := out + {conn};
      peak := Max(peak, |out|);
    }

    /** Returning a connection that is out closes it after its last request. */
    method ReturnConnection(conn: Connection) returns (closed: bool)
      requires Valid() && conn in out
      modifies this
      ensures Valid()
      ensures out == old(out) - {conn} && peak == old(peak)
      ensures conn in old(usesPerConn) && closed == (old(usesPerConn)[conn] == Max(1, maxRequestBeforeRecycling))
      ensures if closed then usesPerConn == old(usesPerConn) - {conn} && freeConnections == old(freeConnections)
              else usesPerConn == old(usesPerConn) && freeConnections == old(freeConnections) + [conn]
    {
      hide Served, Tracked, Max;
      OutIsTracked(usesPerConn, freeConnections, out, conn, maxRequestBeforeRecycling);
      closed := LastUse(conn);
      if closed {
        Closes(usesPerConn, freeConnections, out, conn, maxRequestBeforeRecycling);
        usesPerConn := usesPerConn - {conn};
      } else {
        Frees(usesPerConn, freeConnections, out, conn, maxRequestBeforeRecycling);
        freeConnections := freeConnections + [conn];
      }
      out := out - {conn};
    }

    /** What the request's header says. It asks for closing with the connection's
        last allowed request and with no other, and then the return closes it. */
    method LastUse(conn: Connection) returns (last: bool)
      requires Valid() && conn in usesPerConn
      ensures last <==> usesPerConn[conn] == Max(1, maxRequestBeforeRecycling)
    {
      last := usesPerConn[conn] >= maxRequestBeforeRecycling;
    }
  }

  lemma SizeAfter(uses: map<Connection, nat>, c: Connection, n: nat)
    ensures uses[c := n].Keys == uses.Keys + {c}
    ensures |uses[c := n]| == if c in uses then |uses| else |uses| + 1
  {
    assert uses[c := n].Keys == uses.Keys + {c};
    if c in uses {
      assert uses.Keys + {c} == uses.Keys;
    }
  }

  lemma SizeOfOut(uses: map<Connection, nat>, out: set<Connection>)
    requires Tracked(uses, [], out)
    ensures |uses| == |out|
  {
    assert Waiting([]) == {};
    assert uses.Keys == out;
  }

  lemma ReusesWithin(uses: map<Connection, nat>, out: set<Connection>, c: Connection, min: nat, peak: nat)
    requires c in uses && |uses| <= Max(min, peak) && c !in out && |out| <= peak
    ensures var peak' := Max(peak, |out + {c}|);
            |out + {c}| <= peak' && |uses[c := uses[c] + 1]| <= Max(min, peak') && 0 <= peak'
  {
    SizeAfter(uses, c, uses[c] + 1);
  }

  /** A connection is opened only when the pool is too small or all of it is out. */
  lemma OpensWithin(uses: map<Connection, nat>, free: seq<Connection>, out: set<Connection>, c: Connection, min: nat,
                    peak: nat)
    requires Tracked(uses, free, out) && c !in uses && c !in out && |out| <= peak && |uses| <= Max(min, peak)
    requires free == [] || |uses| < min
    ensures var peak' := Max(peak, |out + {c}|);
            |out + {c}| <= peak' && |uses[c := 1]| <= Max(min, peak') && 0 <= peak'
  {
    SizeAfter(uses, c, 1);
    assert |out + {c}| == |out| + 1;
    if free == [] {
      SizeOfOut(uses, out);
    }
  }

  lemma Opens(uses: map<Connection, nat>, free: seq<Connection>, out: set<Connection>, c: Connection, limit: nat)
    requires Tracked(uses, free, out) && Served(uses, free, limit) && c !in uses
    ensures Tracked(uses[c := 1], free, out + {c}) && Served(uses[c := 1], free, limit) && c !in out
  {
    assert c !in Waiting(free);
    assert uses[c := 1].Keys == out + {c} + Waiting(free);
  }

  lemma Reuses(uses: map<Connection, nat>, free: seq<Connection>, out: set<Connection>, limit: nat)
    requires Tracked(uses, free, out) && Served(uses, free, limit) && free != []
    ensures var c := free[0];
            && c in uses && c !in out
            && Tracked(uses[c := uses[c] + 1], free[1..], out + {c})
            && Served(uses[c := uses[c] + 1], free[1..], limit)
  {
    var c := free[0];
    FrontOfQueue(free);
    assert c in Waiting(free);
    assert uses[c := uses[c] + 1].Keys == uses.Keys;
    forall d | d in free[1..] ensures d in free && d != c {
      assert d in Waiting(free[1..]);
    }
  }

  lemma OutIsTracked(uses: map<Connection, nat>, free: seq<Connection>, out: set<Connection>, c: Connection,
                     limit: nat)
    requires Tracked(uses, free, out) && Served(uses, free, limit) && c in out
    ensures c in uses && (uses[c] == Max(1, limit) || uses[c] < limit)
  {
  }

  lemma Closes(uses: map<Connection, nat>, free: seq<Connection>, out: set<Connection>, c: Connection, limit: nat)
    requires Tracked(uses, free, out) && Served(uses, free, limit) && c in out && c in uses
    ensures Tracked(uses - {c}, free, out - {c}) && Served(uses - {c}, free, limit)
    ensures |uses - {c}| < |uses| && |out - {c}| < |out|
  {
    assert (uses - {c}).Keys == uses.Keys - {c};
    assert |uses.Keys - {c}| == |uses.Keys| - 1;
  }

  lemma Frees(uses: map<Connection, nat>, free: seq<Connection>, out: set<Connection>, c: Connection, limit: nat)
    requires Tracked(uses, free, out) && Served(uses, free, limit) && c in out && c in uses && uses[c] < limit
    ensures Tracked(uses, free + [c], out - {c}) && Served(uses, free + [c], limit) && |out - {c}| < |out|
  {
    assert c !in free by {
      assert c !in Waiting(free);
    }
    BackOfQueue(free, c);
  }

  lemma FrontOfQueue(queue: seq<Connection>)
    requires queue != [] && NoneTwice(queue)
    ensures NoneTwice(queue[1..]) && Waiting(queue[1..]) == Waiting(queue) - {queue[0]} && queue[0] in Waiting(queue)
  {
    assert queue == [queue[0]] + queue[1..];
    forall c | c in queue[1..] ensures c != queue[0] {
      var i :| 0 <= i < |queue[1..]| && queue[1..][i] == c;
      assert queue[i + 1] == c;
    }
  }

  lemma BackOfQueue(queue: seq<Connection>, c: Connection)
    requires NoneTwice(queue) && c !in queue
    ensures NoneTwice(queue + [c]) && Waiting(queue + [c]) == Waiting(queue) + {c}
  {
  }
}
