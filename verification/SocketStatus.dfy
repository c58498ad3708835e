/** When `lwip_selscan` takes a socket for ready. */
module SocketStatus {
  datatype Kind = Read | Write | Except

  /** What a scan reads of a socket in one protected section. */
  datatype Status = Status(lastdata: bool, rcvevent: int, sendevent: bool, errevent: bool) {
    predicate Ready(k: Kind) {
      match k
      case Read => lastdata || rcvevent > 0
      case Write => sendevent
      case Except => errevent
    }
  }
}
