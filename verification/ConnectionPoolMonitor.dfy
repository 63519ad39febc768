/** The connection pool object: each method is one critical section, proved to be the pool's part of a step. */
module ConnectionPoolMonitor {
  import opened ConnectionPools

  class SqliteConnectionPool {
    var writeConnectionUsed: bool
    var readConnections: seq<ConnId>
    const readConnectionCount: nat
    var idleReadConnectionCount: int
    var nextId: ConnId
    ghost var closed: set<ConnId>

    ghost function View(): Pool
      reads this
    {
      Pool(writeConnectionUsed, readConnections, readConnectionCount, idleReadConnectionCount, nextId, closed)
    }

    /** Init, when every connection opens. */
    constructor (readConnectionCount: nat)
      ensures View() == NewPool(readConnectionCount)
    {
      this.readConnectionCount, closed := readConnectionCount, {};
      readConnections, nextId := [], 0;
      writeConnectionUsed, idleReadConnectionCount := false, readConnectionCount;
      new;
      for i := 0 to readConnectionCount
        invariant View() == NewPool(readConnectionCount).(readConnections := Fresh(0, i), next := i)
      {
        readConnections := readConnections + [nextId];
        nextId := nextId + 1;
        assert Fresh(0, i + 1) == Fresh(0, i) + [i];
      }
    }

    /** Called when the wait is over. */
    method AcquireConnection(isReadOnly: bool) returns (c: Connection)
      requires Available(View(), isReadOnly) && (idleReadConnectionCount > 0 ==> readConnections != [])
      modifies this
      ensures (View(), c) == Acquire(old(View()), isReadOnly)
    {
      if isReadOnly && readConnectionCount != 0 {
        var last := |readConnections| - 1;
        c := Read(readConnections[last]);
        readConnections := readConnections[..last];
        idleReadConnectionCount := idleReadConnectionCount - 1;
      } else {
        writeConnectionUsed := true;
        c := Write;
      }
    }

    method ReleaseConnection(c: Connection)
      modifies this
      ensures View() == Release(old(View()), c)
    {
      match c {
        case Write => writeConnectionUsed := false;
        case Read(id) =>
          readConnections := readConnections + [id];
          idleReadConnectionCount := idleReadConnectionCount + 1;
      }
    }

    method CloseAllConnections()
      modifies this
      ensures View() == old(View()).(writeUsed := true, readConnections := [], idle := 0,
                                     closed := old(closed) + set c | c in old(readConnections))
    {
      writeConnectionUsed := true;
      CloseReadConnections();
      idleReadConnectionCount := 0;
    }

    /** The loop that closes every connection in the vector, which is then cleared. */
    method CloseReadConnections()
      modifies this`readConnections, this`closed
      ensures readConnections == [] && closed == old(closed) + set c | c in old(readConnections)
    {
      for i := 0 to |readConnections|
        invariant readConnections == old(readConnections)
        invariant closed == old(closed) + set c | c in readConnections[..i]
      {
        closed := closed + {readConnections[i]};
      }
      assert old(readConnections)[..|old(readConnections)|] == old(readConnections);
      readConnections := [];
    }

    /** Reopening; `opens(i)` tells whether the i-th open succeeds, and one failure closes the whole pool. */
    method InnerReOpenReadConnections(opens: nat -> bool) returns (ok: bool)
      modifies this
      ensures ok <==> forall i: nat | i < readConnectionCount :: opens(i)
      ensures ok ==> View() == ReOpen(old(View()))
      ensures !ok ==> readConnections == [] && idleReadConnectionCount == 0 && writeConnectionUsed
      ensures forall c | c in old(readConnections) :: c in closed
    {
      CloseReadConnections();
      ghost var all := closed;
      for i := 0 to readConnectionCount
        invariant forall j: nat | j < i :: opens(j)
        invariant View() == old(View()).(closed := all, readConnections := Fresh(old(nextId), i), next := old(nextId) + i)
      {
        if !opens(i) {
          CloseAllConnections();
          return false;
        }
        readConnections := readConnections + [nextId];
        nextId := nextId + 1;
        assert Fresh(old(nextId), i + 1) == Fresh(old(nextId), i) + [old(nextId) + i];
      }
      ok := true;
    }
  }
}
