/** The run-time options and configured values that the request handler and
    the kernel backend consult. */
module Options {
  import opened Common
  import opened Inet

  /** The options tested with opt_enabled(...) in the modelled code. */
  datatype Opt = Proxy | Masq | Forward | MasqOverride

  /** A snapshot of the configuration one request is served with.
      proxy is the configured proxy address, failUser the fallback user (NULL
      when None), retOs the operating-system token of USERID replies, and
      littleEndian the host byte order that htons/ntohs depend on. */
  datatype Config = Config(
    enabled: set<Opt>,
    proxy: Ip4,
    failUser: Option<string>,
    retOs: string,
    littleEndian: bool)

  /** The process-wide option state that k_open may change. */
  class OptionState {
    var enabled: set<Opt>

    constructor (initial: set<Opt>)
      ensures enabled == initial
    {
      enabled := initial;
    }
  }
}
