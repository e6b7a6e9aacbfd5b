/** The gateway's configuration (`Config` and `upstreamSpec` in sohop.go). */
module Config {
  import opened Wrappers
  import Auth

  /** One upstream, keyed in `Config.upstreams` by its subdomain label.
      `headers` maps a header name to the ordered templates of its values. */
  datatype UpstreamSpec = UpstreamSpec(
    url: string,
    auth: bool,
    healthCheck: string,
    webSocket: string,
    headers: map<string, seq<string>>)

  /** The GitHub authorizer's settings; auth/github.go is not part of this
      model, so they are carried as an opaque value. */
  datatype GithubAuth = GithubAuth(settings: string)

  datatype Config = Config(
    domain: string,
    upstreams: map<string, UpstreamSpec>,
    github: Option<GithubAuth>,
    google: Option<Auth.GoogleAuth>,
    authorizedOrgID: int)
}
