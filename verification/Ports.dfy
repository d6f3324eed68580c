/** The port numbers a node hands out, shared by the one-step model and the two threads. */
module Ports {
  /** The initial src_port. */
  const FIRST_PORT := 8000

  /** A port number on the wire is src_port modulo this. */
  const PORTS := 0x1_0000
}
