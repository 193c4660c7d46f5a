/** Canonical targets: the only form in which scope entries and requests are compared. */
module Targets {
  import opened Wrappers
  import opened AddressBlocks

  datatype Host = Literal(version: Version, address: nat) | Name(name: string)

  datatype Scheme = Http | Https

  datatype Target =
    | AddressTarget(version: Version, address: nat)
    | NetworkTarget(block: Block)
    | HostnameTarget(hostname: string)
    | UrlTarget(scheme: Scheme, host: Host, port: nat)

  /** The address space a target covers, if it has one. */
  function Network(t: Target): Option<Block> {
    match t
    case AddressTarget(version, address) => Some(Block(version, address, 0))
    case NetworkTarget(block) => Some(block)
    case UrlTarget(_, Literal(version, address), _) => Some(Block(version, address, 0))
    case _ => None
  }

  /** The name a target needs resolved, if it needs one. */
  function NameOf(t: Target): Option<string> {
    match t
    case HostnameTarget(name) => Some(name)
    case UrlTarget(_, Name(name), _) => Some(name)
    case _ => None
  }
}
