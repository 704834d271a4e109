/** The states of a connection. */
module ConnectionPhase {
  datatype Phase = Connecting | Connected | Disconnecting | Disconnected
}
