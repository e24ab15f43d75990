/** The configuration values the protocol reads. */
module Settings {

  datatype Config = Config(
    appName: string,
    patroniScope: string,
    myName: string,
    myIP: string,
    sslEnabled: bool,
    hostEtcdClientPort: int,
    hostEtcdPeerPort: int,
    etcdClientPort: int,
    etcdHosts: string,
    patroniEtcdHosts: string,
    etcdInitialCluster: string,
    clusterIPs: seq<string>,
    allowNewClusterBootstrap: bool,
    allowAnyNodeBootstrap: bool,
    autoBootstrapIfFresh: bool,
    deadClusterRecovery: bool,
    allowPGDataWipe: bool,
    etcdJoinMaxRetries: int,
    desiredStateStabilityCycles: int,
    etcdUnavailableRecoveryCycles: int,
    bootstrapPeerConfirmCycles: int)

  function EtcdProtocol(cfg: Config): string {
    if cfg.sslEnabled then "https" else "http"
  }
}
