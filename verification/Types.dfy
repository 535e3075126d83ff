/** The structures of udtcp.h, without the strings and the callbacks. */
module Types {
  import opened Wire

  datatype Option<+T> = None | Some(value: T)

  datatype Errno = WouldBlock | Interrupted | InProgress | TimedOut | ConnRefused | NoMemory | Other

  datatype Addr = Addr(ip: int, port: int)

  /** `struct udtcp_infos_s`; `send` is the index in `sends` of the slot it points to. */
  datatype Infos = Infos(
    id: nat,
    tcpSocket: int,
    udpServerSocket: int,
    udpClientSocket: int,
    tcpAddr: Addr,
    udpServerAddr: Addr,
    udpClientAddr: Addr,
    send: int)

  /** No bit set, POLLIN set, or only other bits set. */
  datatype Revents = Quiet | Readable | Trouble

  datatype PollFd = PollFd(fd: int, revents: Revents)

  datatype Datagram = Datagram(source: Addr, data: seq<byte>)

  datatype ConnectResult = ConnectSuccess | ConnectError | ConnectTimeout | ConnectTooMany

  datatype PollResult = PollSuccess | PollError | PollTimeout | PollSignal
}
