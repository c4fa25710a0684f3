/** The parser object: one connection per client port, kept across the packets it is given. */
module Parsers {
  import opened Bytes
  import opened Reassembly
  import opened Demultiplexing
  import opened EndToEnd
  import opened Sessions
  import opened Connections

  class Parser {
    var connections: map<string, Connection>
    ghost var Repr: set<object>

    /** Every connection has its own objects. */
    ghost predicate Valid()
      reads this, Repr
      ensures Valid() ==> this in Repr
    {
      && this in Repr
      && (forall p | p in connections ::
            && connections[p] in Repr && connections[p].Repr <= Repr && this !in connections[p].Repr
            && connections[p].Valid())
      && (forall p, q | p in connections && q in connections && p != q ::
            connections[p].Repr !! connections[q].Repr)
    }

    ghost function View(): (ss: map<string, Session>)
      requires Valid()
      reads this, Repr
      ensures AllSound(ss)
    {
      map p | p in connections ::
        Session(connections[p].server, connections[p].client, connections[p].View())
    }

    constructor ()
      ensures Valid() && fresh(Repr) && View() == map[]
    {
      connections := map[];
      Repr := {this};
    }

    /** It is the client's port, and nothing else, that identifies a connection. */
    method GetConnection(server: Endpoint, client: Endpoint) returns (connection: Connection)
      requires Valid()
      modifies this
      ensures Valid() && fresh(Repr - old(Repr))
      ensures client.port in connections && connections[client.port] == connection
      ensures View() == old(View())[client.port := Opened(old(View()), server, client)]
    {
      hide Connection.Valid, Connection.View;
      if client.port in connections {
        connection := connections[client.port];
      } else {
        connection := new Connection(server, client);
        connections := connections[client.port := connection];
        Repr := Repr + {connection} + connection.Repr;
      }
    }

    method Parse(packet: Packet) returns (panicked: bool)
      requires Valid()
      modifies Repr
      ensures Valid() && fresh(Repr - old(Repr))
      ensures var after := ParsePacket(old(View()), packet);
        panicked == after.Crashed? && View() == after.sessions
    {
      hide Parsed, Connection.Valid, Connection.View;
      var connection := GetConnection(packet.server, packet.client);
      ghost var ss := View();
      panicked := Feed(packet.client.port, packet.data);
      ghost var fed := View()[packet.client.port];
      assert View() == ss[packet.client.port := fed];
      Replaced(old(View()), packet.client.port, Opened(old(View()), packet.server, packet.client), fed);
    }

    /** The other connections do not notice. */
    method Feed(port: string, data: bytes) returns (panicked: bool)
      requires Valid() && port in connections
      modifies Repr
      ensures Valid() && fresh(Repr - old(Repr)) && connections == old(connections)
      ensures forall q | q in connections && q != port :: connections[q].View() == old(connections[q].View())
      ensures var o := Parsed(old(connections[port].View()), data);
        panicked == o.Panicked? && connections[port].View() == o.channels
    {
      hide Parsed, Consistent, AllConsistent, Connection.Valid, Connection.View;
      var connection := connections[port];
      panicked := connection.Parse(data);
      Repr := Repr + connection.Repr;
    }
  }
}
