/** Small types shared by the modules. */
module Wrappers {

  datatype Option<+T> = None | Some(value: T)

  /** An address of toxcore/network.h; ip 0 stands for no address. */
  datatype IpPort = IpPort(ip: nat, port: nat)
}
