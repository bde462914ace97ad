/** The handles themselves: objects that share one counter table and one set of driver
    connections, proved to perform the operations of module Connections. */
module DatabaseManager {
  import opened Connections

  /** The static counter map, and what the driver knows. */
  class Shared {
    var counts: map<string, int>
    var registered: set<string>
    var connected: set<string>
    ghost var handles: set<DBManager>

    constructor ()
      ensures handles == {} && View() == Empty()
    {
      counts, registered, connected, handles := map[], {}, {}, {};
    }

    ghost function View(): Pool<DBManager>
      reads this, handles
    {
      Pool(map h | h in handles :: Slot(h.connection, h.open), counts, registered, connected)
    }

    /** m_open_connections_count[name] += d on a std::atomic_int8_t; the new value. */
    method AddCount(name: string, d: int) returns (count: int)
      modifies this`counts
      ensures counts == old(Add(Int8, View(), name, d).counts)
      ensures count == Count(View(), name)
    {
      count := ToInt8((if name in counts then counts[name] else 0) + d);
      counts := counts[name := count];
    }

    /** QSqlDatabase::contains and database, or else addDatabase. */
    method CreateConnection(name: string, opens: bool)
      modifies this`registered, this`connected
      ensures View() == old(LookedUp(View(), name, opens))
    {
      if name in registered {
        if opens { connected := connected + {name}; }
      } else {
        registered := registered + {name};
      }
    }
  }

  class DBManager {
    const shared: Shared
    var connection: string
    var open: bool

    ghost predicate Valid() reads this, shared {
      this in shared.handles
    }

    constructor (shared: Shared, name: string, opens: bool)
      modifies shared
      ensures this.shared == shared && Valid() && shared.handles == old(shared.handles) + {this}
      ensures connection == name && !open
      ensures shared.View() == Constructed(old(shared.View()), this, name, opens)
    {
      this.shared, connection, open := shared, name, false;
      new;
      shared.CreateConnection(name, opens);
      shared.handles := shared.handles + {this};
    }

    constructor Default(shared: Shared)
      modifies shared
      ensures this.shared == shared && Valid() && shared.handles == old(shared.handles) + {this}
      ensures connection == "" && !open
      ensures shared.View() == DefaultConstructed(old(shared.View()), this)
    {
      this.shared, connection, open := shared, "", false;
      new;
      shared.handles := shared.handles + {this};
    }

    constructor Copy(other: DBManager)
      requires other.Valid()
      modifies other.shared
      ensures shared == other.shared && Valid() && shared.handles == old(other.shared.handles) + {this}
      ensures connection == other.connection && open == other.open
      ensures shared.View() == Copied(Int8, old(other.shared.View()), this, other)
    {
      shared, open, connection := other.shared, other.open, other.connection;
      new;
      if open {
        var count := shared.AddCount(connection, 1);
      }
      shared.handles := shared.handles + {this};
    }

    method Assign(other: DBManager)
      requires Valid() && other.Valid() && other.shared == shared
      modifies this, shared
      ensures Valid() && shared.handles == old(shared.handles)
      ensures connection == old(other.connection) && open == old(other.open)
      ensures shared.View() == Copied(Int8, old(shared.View()), this, other)
    {
      ghost var before := shared.View();
      open := other.open;
      connection := other.connection;
      assert shared.View() == before.(slots := before.slots[this := before.slots[other]]);
      if open {
        var count := shared.AddCount(connection, 1);
      }
    }

    /** The counting half of open. */
    method CountIn()
      requires Valid()
      modifies this`open, shared`counts
      ensures shared.View() == Add(Int8, old(shared.View()), connection, 1)
                               .(slots := old(shared.View()).slots[this := Slot(connection, true)])
      ensures open
    {
      var count := shared.AddCount(connection, 1);
      open := true;
    }

    method Open(opens: bool) returns (result: bool)
      requires Valid()
      modifies this, shared
      ensures Valid() && shared.handles == old(shared.handles)
      ensures connection == old(connection) && open == (old(open) || result)
      ensures shared.View() == Opened(Int8, old(shared.View()), this, opens)
      ensures result <==> connection != "" && (connection in old(shared.connected) || opens)
      ensures result ==> open
    {
      if connection == "" {
        return false;
      }
      if connection in shared.connected {
        if !open { CountIn(); }
        return open;
      } else if !opens {
        return false;
      }
      shared.connected := shared.connected + {connection};
      CountIn();
      return open;
    }

    method Close()
      requires Valid()
      modifies this, shared
      ensures Valid() && shared.handles == old(shared.handles)
      ensures connection == old(connection) && !open
      ensures shared.View() == Closed(Int8, old(shared.View()), this)
    {
      if !open {
        return;
      }
      var count := shared.AddCount(connection, -1);
      open := false;
      if count <= 0 {
        shared.connected := shared.connected - {connection};
      }
    }

    method Destroy()
      requires Valid()
      modifies shared
      ensures shared.handles == old(shared.handles) - {this}
      ensures shared.View() == Destroyed(Int8, old(shared.View()), this)
    {
      if open {
        var count := shared.AddCount(connection, -1);
        if count <= 0 {
          shared.connected := shared.connected - {connection};
        }
      }
      shared.handles := shared.handles - {this};
    }

    method Connect(name: string, opens: bool)
      requires Valid()
      modifies this, shared
      ensures Valid() && shared.handles == old(shared.handles)
      ensures connection == name && open == old(open)
      ensures shared.View() == Reconnected(old(shared.View()), this, name, opens)
    {
      if connection == name {
        return;
      }
      shared.CreateConnection(name, opens);
      connection := name;
    }
  }
}
