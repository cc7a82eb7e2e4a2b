/** The configuration entities of models/config.go that the gate decides with. */
module Models {

  datatype Option<+T> = None | Some(value: T)

  datatype Route = Route(path: string, rule: string, upstream: string, ownGrants: bool)

  /** Per-vhost NGINX knobs; the model carries them and never interprets them. */
  datatype NginxOpts = NginxOpts(
    proxyTimeout: int, maxBodyMB: int, webSocket: bool, noBuffering: bool,
    backendSelfSigned: bool, customServer: string, customLocation: string)

  datatype WafCfg = WafCfg(
    enabled: bool, mode: string, disabledRules: seq<int>, ignoreIPs: seq<string>, customRules: string)

  datatype HostingRef = HostingRef(site: string, vhost: string)

  datatype Health = Health(url: string, intervalSeconds: int)

  datatype Backend = Backend(
    id: string, name: string, host: string, www: bool, ipAllow: seq<string>,
    routes: seq<Route>, health: Health, nginx: NginxOpts,
    hosting: Option<HostingRef>, waf: Option<WafCfg>)

  datatype User = User(
    email: string, provider: string, totpSecret: string, admin: bool, backends: seq<string>)

  /** Times are integers; only their differences matter. */
  datatype Session = Session(
    id: string, email: string, provider: string, twoFADone: bool, createdAt: int, lastSeen: int)

  const RULE_PUBLIC := "public"
  const RULE_AUTHENTICATED := "authenticated"
  const RULE_AUTHORIZED := "authorized"
  const RULE_WHITELIST_LEGACY := "whitelist"

  const NO_ROUTE := Route("", "", "", false)
  const NO_OPTS := NginxOpts(0, 0, false, false, false, "", "")
  const NO_BACKEND := Backend("", "", "", false, [], [], Health("", 0), NO_OPTS, None, None)

  function CanonicalRule(rule: string): string {
    if rule == RULE_WHITELIST_LEGACY then RULE_AUTHORIZED else rule
  }

  /** The path a route is mounted on: an empty path means "/". */
  function RoutePath(rt: Route): (p: string)
    ensures p != ""
  {
    if rt.path == "" then "/" else rt.path
  }
}
