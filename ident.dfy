/** Values shared by every driver: the connection key and a driver's answer. */
module Ident {
  import opened Text

  /**
   * The tuple `(localport, localip, remoteport, remoteip)` a driver is asked
   * about. Ports are the integers parsed from the query; addresses are the
   * dotted-quad texts the socket layer reports, compared as texts.
   */
  datatype ConnKey = ConnKey(localPort: int, localIp: string, remotePort: int, remoteIp: string)

  /**
   * What a driver's `lookup` produces: `None` (no opinion), a string (a user
   * name or an `ERROR:` code), or an exception that escapes it.
   */
  datatype Answer = NoOpinion | Says(text: string) | Raised

  /** `r.startswith("ERROR:")` */
  predicate IsError(r: string) {
    StartsWith(r, "ERROR:")
  }

  /** The dotted-quad text `"a.b.c.d"` of an IPv4 address. */
  function QuadText(a: nat, b: nat, c: nat, d: nat): string {
    NatText(a) + "." + NatText(b) + "." + NatText(c) + "." + NatText(d)
  }
}
