/** What kinds of candidates there are: candidate.h. */
module Candidates {
  type u16 = x: int | 0 <= x < 0x1_0000

  datatype Kind = HOST | SERVER_REFLEXIVE | PEER_REFLEXIVE | RELAYED
  datatype Transport = UDP | TCP_ACTIVE | TCP_PASSIVE | TCP_SO
  /** `ip` is the text that `nice_address_to_string` gives for the address. */
  datatype Address = Address(ip: string, port: u16)
}
