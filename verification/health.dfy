/** The health engine of health.go. A check probes every upstream and reads the
    TLS certificate, then publishes one report: the JSON body and the overall
    flag that decides between 200 and 503.

    Probes and the certificate read run concurrently in the source and are
    joined before publishing; here the probe outcomes and the certificate's
    validity are inputs and the join is a sequential loop. Instants are integer
    nanoseconds. */
module Health {
  import opened Wrappers
  import opened Durations
  import opened Config

  /** `certWarning`: a certificate this close to expiry fails the check. */
  const CertWarning: int := 72 * Hour

  /** What `healthClient.Get` gave for one upstream, with the measured latency. */
  datatype ProbeResult =
    | Response(status: string, statusCode: int, latencyMS: int)
    | TransportError(message: string, latencyMS: int)

  /** `healthStatus`: one upstream's entry in the report. */
  datatype HealthStatus = HealthStatus(response: string, latencyMS: int)

  /** The URL probed for an upstream: its health-check URL, or its proxy URL
      when none is configured. */
  function ProbeURL(spec: UpstreamSpec): string
  {
    if spec.healthCheck == "" then spec.url else spec.healthCheck
  }

  /** The report entry for one probe: the status line, or the error text. */
  function StatusOf(p: ProbeResult): HealthStatus
  {
    match p
    case Response(status, _, latency) => HealthStatus(status, latency)
    case TransportError(message, latency) => HealthStatus(message, latency)
  }

  /** A probe passes when it got a response with status code 200. */
  predicate Passes(p: ProbeResult)
  {
    p.Response? && p.statusCode == 200
  }

  /** `probe(name, url)` is what probing upstream `name` at `url` returned. */
  predicate AllPass(upstreams: map<string, UpstreamSpec>, probe: (string, string) -> ProbeResult)
  {
    forall k :: k in upstreams ==> Passes(probe(k, ProbeURL(upstreams[k])))
  }

  function Responses(upstreams: map<string, UpstreamSpec>, probe: (string, string) -> ProbeResult): map<string, HealthStatus>
  {
    map k | k in upstreams :: StatusOf(probe(k, ProbeURL(upstreams[k])))
  }

  /** The probe half of `performCheck`: one entry per upstream, under its own
      name, and `allOk` cleared by any probe that failed or did not answer 200.
      The upstreams are visited in no particular order, like Go's map range. */
  method ProbeAll(upstreams: map<string, UpstreamSpec>, probe: (string, string) -> ProbeResult)
    returns (responses: map<string, HealthStatus>, allOk: bool)
    ensures responses.Keys == upstreams.Keys
    ensures forall k :: k in upstreams ==> responses[k] == StatusOf(probe(k, ProbeURL(upstreams[k])))
    ensures allOk <==> forall k :: k in upstreams ==> Passes(probe(k, ProbeURL(upstreams[k])))
  {
    allOk := true;
    responses := map[];
    var todo := upstreams.Keys;
    while todo != {}
      invariant todo <= upstreams.Keys
      invariant responses.Keys == upstreams.Keys - todo
      invariant forall k :: k in responses ==> responses[k] == StatusOf(probe(k, ProbeURL(upstreams[k])))
      invariant allOk <==> forall k :: k in upstreams && k !in todo ==> Passes(probe(k, ProbeURL(upstreams[k])))
      decreases todo
    {
      var k :| k in todo;
      var spec := upstreams[k];
      var healthCheck := spec.healthCheck;
      if healthCheck == "" {
        healthCheck := spec.url;
      }
      var result := probe(k, healthCheck);
      match result {
        case Response(status, code, latency) =>
          responses := responses[k := HealthStatus(status, latency)];
          if code != 200 {
            allOk := false;
          }
        case TransportError(message, latency) =>
          responses := responses[k := HealthStatus(message, latency)];
          allOk := false;
      }
      todo := todo - {k};
    }
  }

  /** Where the certificate check stands after reading the file and
      extracting the validity period (`certValidity`). */
  datatype CertSource =
    | Unreadable(message: string)
    | Unparsable(message: string)
    | Validity(notBefore: int, notAfter: int)

  /** The `cert` object of the report; absent keys are None. `expiresIn` is
      the remaining time as a duration. */
  datatype CertReport = CertReport(
    ok: bool,
    expiresAt: Option<int>,
    error: Option<string>,
    validAt: Option<int>,
    expiresIn: Option<int>)

  /** The certificate half of `performCheck`. */
  function ClassifyCert(src: CertSource, now: int): (r: CertReport)
    // passes exactly inside the validity period and outside the warning window
    ensures r.ok <==> src.Validity? && src.notBefore < now && now + CertWarning < src.notAfter
    ensures r.ok <==> r.error.None?
    // a read or parse failure reports its own error text and no expiry
    ensures !src.Validity? ==> r == CertReport(false, None, Some(src.message), None, None)
    ensures src.Validity? ==> r.expiresAt == Some(src.notAfter)
    // the three failures, checked in this order
    ensures src.Validity? && now <= src.notBefore ==>
      r.error == Some("not yet valid") && r.validAt == Some(src.notBefore) && r.expiresIn.None?
    ensures src.Validity? && src.notBefore < now && src.notAfter <= now ==>
      r.error == Some("expired") && r.validAt.None? && r.expiresIn.None?
    ensures src.Validity? && src.notBefore < now < src.notAfter <= now + CertWarning ==>
      r.error == Some("expires soon") && r.validAt.None? && r.expiresIn == Some(src.notAfter - now)
    ensures r.ok ==> r.validAt.None? && r.expiresIn.None?
  {
    match src
    case Unreadable(m) => CertReport(false, None, Some(m), None, None)
    case Unparsable(m) => CertReport(false, None, Some(m), None, None)
    case Validity(notBefore, notAfter) =>
      if !(notBefore < now) then
        CertReport(false, Some(notAfter), Some("not yet valid"), Some(notBefore), None)
      else if !(notAfter > now) then
        CertReport(false, Some(notAfter), Some("expired"), None, None)
      else if !(notAfter - CertWarning > now) then
        CertReport(false, Some(notAfter), Some("expires soon"), None, Some(notAfter - now))
      else
        CertReport(true, Some(notAfter), None, None, None)
  }

  /** The body stored when the report cannot be serialized. */
  const InternalServerError: string := "internal server error"

  /** What the health endpoint writes. */
  datatype Reply = Reply(status: int, contentType: string, body: string)

  /** `healthReport`: the last published snapshot. Before the first check it
      is empty and not ok. */
  class HealthReport {
    var response: string
    var allOk: bool

    constructor ()
      ensures response == [] && !allOk
    {
      response := [];
      allOk := false;
    }

    /** `performCheck`: probe, classify the certificate, serialize with
        `marshal` (None when `json.MarshalIndent` fails) and publish. */
    method PerformCheck(upstreams: map<string, UpstreamSpec>, probe: (string, string) -> ProbeResult,
                        cert: CertSource, now: int,
                        marshal: (map<string, HealthStatus>, CertReport) -> Option<string>)
      modifies this
      ensures var body := marshal(Responses(upstreams, probe), ClassifyCert(cert, now));
        && (allOk <==> AllPass(upstreams, probe) && ClassifyCert(cert, now).ok && body.Some?)
        && response == if body.Some? then body.value else InternalServerError
    {
      var responses, ok := ProbeAll(upstreams, probe);
      assert responses == Responses(upstreams, probe);
      var certResponse := ClassifyCert(cert, now);
      ok := ok && certResponse.ok;
      var res := marshal(responses, certResponse);
      if res.None? {
        response := InternalServerError;
        allOk := false;
        return;
      }
      allOk := ok;
      response := res.value;
    }

    /** `HealthHandler`: 503 unless the last check was ok, and the stored body
        either way. */
    function Serve(): (r: Reply)
      reads this
      ensures r.status == 200 || r.status == 503
      ensures r.status == 200 <==> allOk
      ensures r.body == response
      ensures r.contentType == "application/json; charset=UTF-8"
    {
      Reply(if allOk then 200 else 503, "application/json; charset=UTF-8", response)
    }
  }

  /** One unreachable upstream makes the whole check fail with its error text
      in the report, whatever the certificate. */
  lemma UnreachableUpstreamFails(upstreams: map<string, UpstreamSpec>,
                                probe: (string, string) -> ProbeResult, k: string)
    requires k in upstreams && probe(k, ProbeURL(upstreams[k])).TransportError?
    ensures !AllPass(upstreams, probe)
    ensures Responses(upstreams, probe)[k].response == probe(k, ProbeURL(upstreams[k])).message
  {
  }
}
