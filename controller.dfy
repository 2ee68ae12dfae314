/**
 * `rudp::ConnectionController`: the registry that hands out connection
 * numbers and owns the connections, and the lazily created single instance
 * through which the C interface reaches it.
 *
 * The registry's table and counter are static members in the
 * implementation; since the only instance is the one `getInstance` creates,
 * they are modelled as fields of that instance.
 */
module Controller {
  import opened Wire
  import Rudp

  /**
   * `DEFAULT_TIMEOUT_MS`, a macro of `rudp_macros.h`, which is not part of
   * this model; its value is left unspecified.
   */
  const DefaultTimeoutMs: Int32

  /** `connections.at(k)`: the connection, or the `std::out_of_range` the lookup throws. */
  datatype Lookup = Found(connection: Rudp.Connection) | OutOfRange

  class ConnectionController {
    /** Connection number to connection. */
    var connections: map<int, Rudp.Connection>
    /** The number handed out last; numbers start at 1. */
    var connectionCount: int

    /**
     * Every registered number was handed out (it lies in `1..connectionCount`),
     * and no two numbers share a connection.
     */
    ghost predicate Valid()
      reads this
    {
      && connectionCount >= 0
      && (forall h :: h in connections ==> 1 <= h <= connectionCount)
      && (forall h, h' :: h in connections && h' in connections && h != h' ==> connections[h] != connections[h'])
    }

    constructor ()
      ensures Valid()
      ensures connections == map[] && connectionCount == 0
    {
      connections := map[];
      connectionCount := 0;
    }

    /** `addConnection()`: a new connection with the default timeout. */
    method AddConnection() returns (handle: int)
      requires Valid()
      modifies this
      ensures Valid()
      ensures handle == old(connectionCount) + 1 == connectionCount
      ensures handle !in old(connections)
      ensures handle in connections && connections == old(connections)[handle := connections[handle]]
      ensures fresh(connections[handle])
      ensures connections[handle].Valid() && connections[handle].Initial()
      ensures connections[handle].timeoutMs == DefaultTimeoutMs
    {
      handle := AddConnectionWithTimeout(DefaultTimeoutMs);
    }

    /**
     * `addConnection(timeout_ms)`: the counter is advanced first and the new
     * connection is stored under its new value, which is returned. The number
     * is one no earlier call returned, so it never replaces a registered
     * connection, even after removals.
     */
    method AddConnectionWithTimeout(timeoutMs: Int32) returns (handle: int)
      requires Valid()
      modifies this
      ensures Valid()
      ensures handle == old(connectionCount) + 1 == connectionCount
      ensures handle !in old(connections)
      ensures handle in connections && connections == old(connections)[handle := connections[handle]]
      ensures fresh(connections[handle])
      ensures connections[handle].Valid() && connections[handle].Initial()
      ensures connections[handle].timeoutMs == timeoutMs
    {
      connectionCount := connectionCount + 1;
      var c := new Rudp.Connection(timeoutMs);
      connections := connections[connectionCount := c];
      handle := connectionCount;
    }

    /** `removeConnection(k)`: erases `k` if it is registered; an unknown number is ignored. */
    method RemoveConnection(k: int)
      requires Valid()
      modifies this`connections
      ensures Valid()
      ensures connections == old(connections) - {k}
    {
      connections := connections - {k};
    }

    /** `getConnection(k)`: the connection registered under `k`, or out of range. */
    method GetConnection(k: int) returns (r: Lookup)
      ensures r.Found? <==> k in connections
      ensures r.Found? ==> r.connection == connections[k]
    {
      if k in connections {
        r := Found(connections[k]);
      } else {
        r := OutOfRange;
      }
    }
  }

  /** The holder of `ConnectionController::instance`, initially null. */
  class ControllerSingleton {
    var instance: ConnectionController?

    constructor ()
      ensures instance == null
    {
      instance := null;
    }

    /** `getInstance()`: creates the controller on the first call and returns the same one ever after. */
    method GetInstance() returns (c: ConnectionController)
      modifies this`instance
      ensures instance == c
      ensures old(instance) != null ==> c == old(instance)
      ensures old(instance) == null ==> fresh(c) && c.Valid() && c.connections == map[] && c.connectionCount == 0
    {
      if instance == null {
        instance := new ConnectionController();
      }
      c := instance;
    }
  }
}
