/**
 What the two ends of a connection write into the record they received from each
 other in the handshake.
 */
module Wiring {
  import opened Types

  /** The server's entry for a client: the client's record with the address seen by
      `accept`, the accepted socket, and the server's own UDP sockets crossed over. */
  function ServerEntry(record: Infos, peer: Addr, socket: int, server: Infos, id: nat, slot: int): Infos {
    Infos(id, socket, server.udpClientSocket, server.udpServerSocket,
          record.tcpAddr.(ip := peer.ip), record.udpServerAddr.(ip := peer.ip), record.udpClientAddr.(ip := peer.ip),
          slot)
  }

  /** The client's entry for the server, after `udtcp_connect_client`. */
  function ClientEntry(record: Infos, host: int, client: Infos): Infos {
    Infos(0, client.tcpSocket, client.udpClientSocket, client.udpServerSocket,
          record.tcpAddr.(ip := host), record.udpServerAddr.(ip := host), record.udpClientAddr.(ip := host),
          0)
  }

  /** Where the datagrams of a party come from: the port its sending socket is bound to,
      at the address the other side sees. */
  function Outbox(own: Infos, ip: int): Addr {
    own.udpClientAddr.(ip := ip)
  }

  /** Where a party receives datagrams. */
  function Inbox(own: Infos, ip: int): Addr {
    own.udpServerAddr.(ip := ip)
  }
}
