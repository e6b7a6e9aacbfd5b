/** The upstream table and the request dispatcher of proxy.go.

    `url.Parse`, template parsing and execution, and `wsutil.IsWebSocketRequest`
    are library code: they are passed in as oracle functions. Go ranges over
    maps in no fixed order; the loops below pick the next key with `:|`, and
    their contracts hold whatever the order. */
module Proxy {
  import opened Wrappers
  import opened Strings
  import opened Config

  /** A parsed header template, known by its source text. */
  datatype Template = Template(source: string)

  /** The session handed to the templates as `{{.Session}}`. */
  datatype Session = Session(values: map<string, string>)

  /** `upstream`: where the HTTP and the WebSocket proxies forward to, when
      configured, and the compiled templates per header name. */
  datatype Upstream = Upstream(
    httpProxy: Option<string>,
    wsProxy: Option<string>,
    headerTemplates: map<string, seq<Template>>)

  /** Why the upstream table cannot be built: an unparsable proxy URL (an
      error return) or an unparsable template (a panic in `template.Must`). */
  datatype ConfigError = BadURL(url: string) | BadTemplate(source: string)

  // ---------------------------------------------------------------------------
  // Building the upstream table

  function Compile(sources: seq<string>): (ts: seq<Template>)
    ensures |ts| == |sources|
    ensures forall i :: 0 <= i < |ts| ==> ts[i] == Template(sources[i])
  {
    seq(|sources|, i requires 0 <= i < |sources| => Template(sources[i]))
  }

  /** The templates of a header configuration: one list per header that has
      at least one template, in the configured order. */
  function CompiledHeaders(headers: map<string, seq<string>>): map<string, seq<Template>>
  {
    map k | k in headers && |headers[k]| > 0 :: Compile(headers[k])
  }

  predicate TemplatesParse(headers: map<string, seq<string>>, parsesTemplate: string -> bool)
  {
    forall k, i :: k in headers && 0 <= i < |headers[k]| ==> parsesTemplate(headers[k][i])
  }

  /** The template loops of `createUpstreams`: every template of every
      header is parsed and appended to that header's list. */
  method CompileHeaders(headers: map<string, seq<string>>, parsesTemplate: string -> bool)
    returns (r: Result<map<string, seq<Template>>, ConfigError>)
    ensures r.Ok? <==> TemplatesParse(headers, parsesTemplate)
    ensures r.Ok? ==> r.value == CompiledHeaders(headers)
    ensures r.Ok? ==> r.value.Keys == set k | k in headers && |headers[k]| > 0
    ensures r.Ok? ==> forall k :: k in r.value ==>
      |r.value[k]| == |headers[k]| && forall i :: 0 <= i < |headers[k]| ==> r.value[k][i] == Template(headers[k][i])
    ensures r.Err? ==> (r.error.BadTemplate? && !parsesTemplate(r.error.source) &&
      exists k, i :: k in headers && 0 <= i < |headers[k]| && headers[k][i] == r.error.source)
  {
    var templates: map<string, seq<Template>> := map[];
    var todo := headers.Keys;
    while todo != {}
      invariant CompileInvariant(headers, parsesTemplate, templates, todo)
      decreases todo
    {
      var k :| k in todo;
      var next := AppendTemplates(templates, k, headers[k], parsesTemplate);
      if next.Err? {
        return Err(next.error);
      }
      CompileStep(headers, parsesTemplate, templates, todo, k, next.value);
      templates := next.value;
      todo := todo - {k};
    }
    assert templates == CompiledHeaders(headers);
    return Ok(templates);
  }

  /** What `CompileHeaders` has built once the headers outside `todo` are done. */
  ghost predicate CompileInvariant(headers: map<string, seq<string>>, parsesTemplate: string -> bool,
                                   templates: map<string, seq<Template>>, todo: set<string>)
  {
    && todo <= headers.Keys
    && (forall k :: k in templates <==> k in headers && k !in todo && |headers[k]| > 0)
    && (forall k :: k in templates ==> templates[k] == Compile(headers[k]))
    && (forall k, i :: k in headers && k !in todo && 0 <= i < |headers[k]| ==> parsesTemplate(headers[k][i]))
  }

  lemma CompileStep(headers: map<string, seq<string>>, parsesTemplate: string -> bool,
                    templates: map<string, seq<Template>>, todo: set<string>, k: string,
                    next: map<string, seq<Template>>)
    requires CompileInvariant(headers, parsesTemplate, templates, todo) && k in todo
    requires forall j :: 0 <= j < |headers[k]| ==> parsesTemplate(headers[k][j])
    requires next == if |headers[k]| == 0 then templates else templates[k := Compile(headers[k])]
    ensures CompileInvariant(headers, parsesTemplate, next, todo - {k})
  {
  }

  /** The inner loop of `createUpstreams` for header `k`: each template of
      `v` is parsed and appended to the list under `k`, which does not exist
      yet; an empty `v` adds no entry. */
  method AppendTemplates(templates: map<string, seq<Template>>, k: string, v: seq<string>,
                         parsesTemplate: string -> bool)
    returns (r: Result<map<string, seq<Template>>, ConfigError>)
    requires k !in templates
    ensures r.Ok? <==> forall j :: 0 <= j < |v| ==> parsesTemplate(v[j])
    ensures r.Ok? ==> r.value == if |v| == 0 then templates else templates[k := Compile(v)]
    ensures r.Err? ==> r.error.BadTemplate? && !parsesTemplate(r.error.source) && r.error.source in v
  {
    var m := templates;
    for i := 0 to |v|
      invariant forall j :: 0 <= j < i ==> parsesTemplate(v[j])
      invariant m == if i == 0 then templates else templates[k := Compile(v[..i])]
    {
      if !parsesTemplate(v[i]) {
        return Err(BadTemplate(v[i]));
      }
      var list := if k in m then m[k] else [];
      assert Compile(v[..i + 1]) == (if i == 0 then [] else Compile(v[..i])) + [Template(v[i])];
      m := m[k := list + [Template(v[i])]];
    }
    assert |v| > 0 ==> v[..|v|] == v;
    return Ok(m);
  }

  /** The upstream a well-formed spec becomes. */
  function UpstreamOf(spec: UpstreamSpec): Upstream
  {
    Upstream(
      if spec.url == "" then None else Some(spec.url),
      if spec.webSocket == "" then None else Some(spec.webSocket),
      CompiledHeaders(spec.headers))
  }

  /** The table a well-formed configuration becomes. */
  function Upstreams(specs: map<string, UpstreamSpec>): map<string, Upstream>
  {
    map name | name in specs :: UpstreamOf(specs[name])
  }

  /** Every configured URL parses and every template parses. */
  predicate SpecValid(spec: UpstreamSpec, validURL: string -> bool, parsesTemplate: string -> bool)
  {
    && (spec.url != "" ==> validURL(spec.url))
    && (spec.webSocket != "" ==> validURL(spec.webSocket))
    && TemplatesParse(spec.headers, parsesTemplate)
  }

  /** `e` is a fault of `spec`. */
  predicate IsFaultOf(spec: UpstreamSpec, e: ConfigError, validURL: string -> bool, parsesTemplate: string -> bool)
  {
    match e
    case BadURL(u) => !validURL(u) && u != "" && (u == spec.url || u == spec.webSocket)
    case BadTemplate(t) => (!parsesTemplate(t) &&
      exists k, i :: k in spec.headers && 0 <= i < |spec.headers[k]| && spec.headers[k][i] == t)
  }

  /** One iteration of `createUpstreams`: both proxy URLs parsed when
      configured, then the header templates compiled. */
  method NewUpstream(spec: UpstreamSpec, validURL: string -> bool, parsesTemplate: string -> bool)
    returns (r: Result<Upstream, ConfigError>)
    ensures r.Ok? <==> SpecValid(spec, validURL, parsesTemplate)
    ensures r.Ok? ==> r.value == UpstreamOf(spec)
    ensures r.Err? ==> IsFaultOf(spec, r.error, validURL, parsesTemplate)
  {
    var httpProxy: Option<string> := None;
    if spec.url != "" {
      if !validURL(spec.url) {
        return Err(BadURL(spec.url));
      }
      httpProxy := Some(spec.url);
    }
    var wsProxy: Option<string> := None;
    if spec.webSocket != "" {
      if !validURL(spec.webSocket) {
        return Err(BadURL(spec.webSocket));
      }
      wsProxy := Some(spec.webSocket);
    }
    var templates := CompileHeaders(spec.headers, parsesTemplate);
    if templates.Err? {
      return Err(templates.error);
    }
    return Ok(Upstream(httpProxy, wsProxy, templates.value));
  }

  /** `createUpstreams`. */
  method CreateUpstreams(specs: map<string, UpstreamSpec>, validURL: string -> bool, parsesTemplate: string -> bool)
    returns (r: Result<map<string, Upstream>, ConfigError>)
    ensures r.Ok? <==> forall name :: name in specs ==> SpecValid(specs[name], validURL, parsesTemplate)
    ensures r.Ok? ==> r.value == Upstreams(specs)
    ensures r.Ok? ==> r.value.Keys == specs.Keys
    ensures r.Ok? ==> forall name :: name in specs ==>
      && (r.value[name].httpProxy.Some? <==> specs[name].url != "")
      && (r.value[name].httpProxy.Some? ==> r.value[name].httpProxy.value == specs[name].url)
      && (r.value[name].wsProxy.Some? <==> specs[name].webSocket != "")
      && (r.value[name].wsProxy.Some? ==> r.value[name].wsProxy.value == specs[name].webSocket)
    ensures r.Err? ==> exists name :: name in specs && IsFaultOf(specs[name], r.error, validURL, parsesTemplate)
  {
    var m: map<string, Upstream> := map[];
    var todo := specs.Keys;
    while todo != {}
      invariant todo <= specs.Keys
      invariant m.Keys == specs.Keys - todo
      invariant forall name :: name in m ==> m[name] == UpstreamOf(specs[name])
      invariant forall name :: name in specs && name !in todo ==> SpecValid(specs[name], validURL, parsesTemplate)
      decreases todo
    {
      var name :| name in todo;
      var upstream := NewUpstream(specs[name], validURL, parsesTemplate);
      if upstream.Err? {
        return Err(upstream.error);
      }
      m := m[name := upstream.value];
      todo := todo - {name};
    }
    assert m == Upstreams(specs);
    return Ok(m);
  }

  // ---------------------------------------------------------------------------
  // The request and its header

  /** The part of `http.Request` that the dispatcher rewrites: its header, a
      multimap from (canonical) names to values. */
  class Request {
    var header: map<string, seq<string>>

    /** `Header.Del`. */
    method Del(key: string)
      modifies this`header
      ensures header == old(header) - {key}
    {
      header := header - {key};
    }

    /** `Header.Add`: append a value to the key's list. */
    method Add(key: string, value: string)
      modifies this`header
      ensures header == old(header)[key := (if key in old(header) then old(header)[key] else []) + [value]]
    {
      var values := if key in header then header[key] else [];
      header := header[key := values + [value]];
    }
  }

  // ---------------------------------------------------------------------------
  // Header templating

  /** Every template renders in the session. */
  predicate AllRender(templates: map<string, seq<Template>>, session: Session,
                      render: (Template, Session) -> Result<string, string>)
  {
    forall k, i :: k in templates && 0 <= i < |templates[k]| ==> render(templates[k][i], session).Ok?
  }

  /** The first `n` rendered values of a list of templates. */
  function RenderedPrefix(ts: seq<Template>, n: nat, session: Session,
                          render: (Template, Session) -> Result<string, string>): (vs: seq<string>)
    requires n <= |ts|
    requires forall j :: 0 <= j < n ==> render(ts[j], session).Ok?
    ensures |vs| == n
    ensures forall j :: 0 <= j < n ==> vs[j] == render(ts[j], session).value
  {
    seq(n, j requires 0 <= j < n => render(ts[j], session).value)
  }

  /** The header after templating: each templated name holds exactly its
      rendered values, in template order; every other name is as before. */
  function Templated(h: map<string, seq<string>>, templates: map<string, seq<Template>>, session: Session,
                     render: (Template, Session) -> Result<string, string>): map<string, seq<string>>
    requires AllRender(templates, session, render)
  {
    map k | k in (h.Keys - templates.Keys) + (set t | t in templates && |templates[t]| > 0) ::
      if k in templates then RenderedPrefix(templates[k], |templates[k]|, session, render) else h[k]
  }

  /** A header with the name `k` set to the rendered values of `vs`, or
      removed when `vs` is empty. */
  function Rerendered(h: map<string, seq<string>>, k: string, vs: seq<Template>, session: Session,
                      render: (Template, Session) -> Result<string, string>): map<string, seq<string>>
    requires forall i :: 0 <= i < |vs| ==> render(vs[i], session).Ok?
  {
    if |vs| == 0 then h - {k} else h[k := RenderedPrefix(vs, |vs|, session, render)]
  }

  /** One header of the templating step: delete what the client sent, then
      render and append each template in order. A template that fails to
      render stops the step with its error text. */
  method RenderHeader(r: Request, k: string, vs: seq<Template>, session: Session,
                      render: (Template, Session) -> Result<string, string>)
    returns (err: Option<string>)
    modifies r`header
    ensures err.None? <==> forall i :: 0 <= i < |vs| ==> render(vs[i], session).Ok?
    ensures err.None? ==> r.header == Rerendered(old(r.header), k, vs, session, render)
    ensures err.Some? ==> exists i :: 0 <= i < |vs| && render(vs[i], session) == Err(err.value)
    ensures forall k' :: k' != k ==>
      (k' in r.header <==> k' in old(r.header)) && (k' in r.header ==> r.header[k'] == old(r.header)[k'])
  {
    r.Del(k);
    ghost var cleared := r.header;
    for i := 0 to |vs|
      invariant forall j :: 0 <= j < i ==> render(vs[j], session).Ok?
      invariant r.header == if i == 0 then cleared else cleared[k := RenderedPrefix(vs, i, session, render)]
    {
      var value := render(vs[i], session);
      if value.Err? {
        return Some(value.error);
      }
      r.Add(k, value.value);
      assert RenderedPrefix(vs, i + 1, session, render) ==
        (if i == 0 then [] else RenderedPrefix(vs, i, session, render)) + [value.value];
    }
    return None;
  }

  /** The templating step of `ProxyHandler`, over every templated header. */
  method ApplyTemplates(r: Request, templates: map<string, seq<Template>>, session: Session,
                        render: (Template, Session) -> Result<string, string>)
    returns (err: Option<string>)
    modifies r`header
    ensures err.None? <==> AllRender(templates, session, render)
    ensures err.None? ==> r.header == Templated(old(r.header), templates, session, render)
    ensures err.Some? ==> exists k, i :: k in templates && 0 <= i < |templates[k]| && render(templates[k][i], session) == Err(err.value)
    ensures forall k :: k !in templates ==>
      (k in r.header <==> k in old(r.header)) && (k in r.header ==> r.header[k] == old(r.header)[k])
  {
    var todo := templates.Keys;
    while todo != {}
      invariant TemplatingInvariant(old(r.header), r.header, templates, todo, session, render)
      decreases todo
    {
      var k :| k in todo;
      ghost var h := r.header;
      err := RenderHeader(r, k, templates[k], session, render);
      if err.Some? {
        return;
      }
      TemplatingStep(old(r.header), h, templates, todo, k, session, render);
      todo := todo - {k};
    }
    TemplatingEnd(old(r.header), r.header, templates, session, render);
    return None;
  }

  /** The state of the templating loop with the names in `todo` still to
      visit: names not yet visited, and names without templates, are as the
      client sent them; every visited name rendered, and holds its rendered
      values, or is absent when it has no templates. */
  ghost predicate TemplatingInvariant(h0: map<string, seq<string>>, h: map<string, seq<string>>,
                                      templates: map<string, seq<Template>>, todo: set<string>, session: Session,
                                      render: (Template, Session) -> Result<string, string>)
  {
    && todo <= templates.Keys
    && (forall k :: (k !in templates || k in todo) ==>
          (k in h <==> k in h0) && (k in h ==> h[k] == h0[k]))
    && (forall k, i :: k in templates && k !in todo && 0 <= i < |templates[k]| ==> render(templates[k][i], session).Ok?)
    && (forall k :: k in templates && k !in todo ==>
          (k in h <==> |templates[k]| > 0) &&
          (k in h ==> h[k] == RenderedPrefix(templates[k], |templates[k]|, session, render)))
  }

  lemma TemplatingStep(h0: map<string, seq<string>>, h: map<string, seq<string>>,
                       templates: map<string, seq<Template>>, todo: set<string>, k: string, session: Session,
                       render: (Template, Session) -> Result<string, string>)
    requires TemplatingInvariant(h0, h, templates, todo, session, render) && k in todo
    requires forall i :: 0 <= i < |templates[k]| ==> render(templates[k][i], session).Ok?
    ensures TemplatingInvariant(h0, Rerendered(h, k, templates[k], session, render), templates, todo - {k}, session, render)
  {
  }

  lemma TemplatingEnd(h0: map<string, seq<string>>, h: map<string, seq<string>>,
                      templates: map<string, seq<Template>>, session: Session,
                      render: (Template, Session) -> Result<string, string>)
    requires TemplatingInvariant(h0, h, templates, {}, session, render)
    ensures AllRender(templates, session, render)
    ensures h == Templated(h0, templates, session, render)
  {
    var expected := Templated(h0, templates, session, render);
    assert forall k :: k in h <==> k in expected;
  }

  /** The client cannot influence a templated header: whatever it sent, the
      header ends up holding the values rendered from the session. */
  lemma TemplatedIgnoresClient(h1: map<string, seq<string>>, h2: map<string, seq<string>>,
                               templates: map<string, seq<Template>>, session: Session,
                               render: (Template, Session) -> Result<string, string>, k: string)
    requires AllRender(templates, session, render)
    requires k in templates && |templates[k]| > 0
    ensures k in Templated(h1, templates, session, render) && k in Templated(h2, templates, session, render)
    ensures Templated(h1, templates, session, render)[k] == Templated(h2, templates, session, render)[k]
  {
  }

  // ---------------------------------------------------------------------------
  // WebSocket header names

  const Misspelling: string := "Websocket"
  const Spelling: string := "WebSocket"

  /** The header name still carries Go's canonical "Websocket" spelling. */
  predicate Misspelled(k: string)
  {
    Contains(k, Misspelling)
  }

  /** `strings.Replace(k, "Websocket", "WebSocket", -1)`. */
  function Respelled(k: string): string
  {
    ReplaceAll(k, Misspelling, Spelling)
  }

  /** Respelling never creates a 'W' where the text had none: a respelled
      name that starts with a 'W'-free text started with it before. */
  lemma {:induction false} RespelledKeepsPrefix(t: string, w: string)
    requires 'W' !in w
    requires |w| <= |Respelled(t)| && Respelled(t)[..|w|] == w
    ensures |w| <= |t| && t[..|w|] == w
    decreases |t|
  {
    if |w| > 0 && |t| >= |Misspelling| {
      assert w[0] == Respelled(t)[0];
      if t[..|Misspelling|] == Misspelling {
        assert false;
      } else {
        var rest := Respelled(t[1..]);
        assert Respelled(t) == [t[0]] + rest;
        assert w[0] == t[0];
        assert rest[..|w| - 1] == w[1..];
        RespelledKeepsPrefix(t[1..], w[1..]);
        assert t[..|w|] == [t[0]] + t[1..][..|w| - 1];
      }
    }
  }

  /** After respelling, "Websocket" occurs nowhere in the name. */
  lemma {:induction false} RespelledIsClean(k: string)
    ensures !Misspelled(Respelled(k))
    decreases |k|
  {
    if |k| >= |Misspelling| {
      if k[..|Misspelling|] == Misspelling {
        var rest := Respelled(k[|Misspelling|..]);
        RespelledIsClean(k[|Misspelling|..]);
        assert Respelled(k) == Spelling + rest;
        forall i | 0 <= i < |Spelling| && i <= |Spelling + rest| - |Misspelling|
          ensures !OccursAt(Spelling + rest, Misspelling, i)
        {
          var r := Spelling + rest;
          if i == 0 {
            assert r[i..i + |Misspelling|][3] == r[3] == 'S';
          } else {
            assert r[i..i + |Misspelling|][0] == r[i] == Spelling[i] != 'W';
          }
        }
        AbsentBehind(Spelling, rest, Misspelling);
      } else {
        var rest := Respelled(k[1..]);
        RespelledIsClean(k[1..]);
        assert Respelled(k) == [k[0]] + rest;
        if OccursAt([k[0]] + rest, Misspelling, 0) {
          var tail := "ebsocket";
          assert rest[..|tail|] == ([k[0]] + rest)[1..|Misspelling|] == tail;
          RespelledKeepsPrefix(k[1..], tail);
          assert false;
        }
        AbsentBehind([k[0]], rest, Misspelling);
      }
    }
  }

  /** Names without the misspelling are left as they are. */
  lemma RespelledKeepsClean(k: string)
    requires !Misspelled(k)
    ensures Respelled(k) == k
  {
    ReplaceAllAbsent(k, Misspelling, Spelling);
  }

  /** `fix` is a renaming that cleans the names `bad` flags and leaves the
      others alone. */
  ghost predicate Cleans(bad: string -> bool, fix: string -> string)
  {
    && (forall k :: !bad(fix(k)))
    && (forall k :: !bad(k) ==> fix(k) == k)
  }

  lemma RespellingCleans()
    ensures Cleans(Misspelled, Respelled)
  {
    forall k ensures !Misspelled(Respelled(k)) && (!Misspelled(k) ==> Respelled(k) == k) {
      RespelledIsClean(k);
      if !Misspelled(k) {
        RespelledKeepsClean(k);
      }
    }
  }

  /** What renaming did to a header: no flagged name is left, every name is
      present under its new name, every value is the value of a name that
      was renamed to it, and a name that a flagged name was renamed to holds
      the value of a flagged name, whatever it held before. */
  ghost predicate Renamed(before: map<string, seq<string>>, after: map<string, seq<string>>,
                          bad: string -> bool, fix: string -> string)
  {
    && (forall k :: k in after ==> !bad(k))
    && (forall k :: k in before ==> fix(k) in after)
    && (forall k' :: k' in after ==> exists k :: k in before && fix(k) == k' && after[k'] == before[k])
    && (forall k :: k in before && bad(k) ==>
          exists k0 :: k0 in before && bad(k0) && fix(k0) == fix(k) && after[fix(k)] == before[k0])
  }

  /** What respelling did to the header: no misspelled name is left, every
      name is present under its respelled form, every value is the value of
      a name that respells to it, and a misspelled name's respelling holds
      the value of a misspelled name. */
  ghost predicate RespelledHeader(before: map<string, seq<string>>, after: map<string, seq<string>>)
  {
    Renamed(before, after, Misspelled, Respelled)
  }

  /** No two header names respell to the same name. */
  ghost predicate RespellingInjective(keys: set<string>)
  {
    forall k1, k2 :: k1 in keys && k2 in keys && Respelled(k1) == Respelled(k2) ==> k1 == k2
  }

  /** When no two names collide, each value stays with its respelled name. */
  lemma RespelledKeepsValues(before: map<string, seq<string>>, after: map<string, seq<string>>)
    requires RespelledHeader(before, after) && RespellingInjective(before.Keys)
    ensures forall k :: k in before ==> after[Respelled(k)] == before[k]
  {
    forall k | k in before ensures after[Respelled(k)] == before[k] {
      var k0 :| k0 in before && Respelled(k0) == Respelled(k) && after[Respelled(k)] == before[k0];
    }
  }

  /** A name already spelled "WebSocket" never keeps its own value against
      a misspelled name that respells to it: when only `k` respells to that
      name, `k`'s value is there afterwards, whatever the visiting order. */
  lemma RespelledOverridesClean(before: map<string, seq<string>>, after: map<string, seq<string>>, k: string)
    requires RespelledHeader(before, after)
    requires k in before && Misspelled(k)
    requires forall k1 :: k1 in before && Misspelled(k1) && Respelled(k1) == Respelled(k) ==> k1 == k
    ensures Respelled(k) in after && after[Respelled(k)] == before[k]
  {
    var k0 :| k0 in before && Misspelled(k0) && Respelled(k0) == Respelled(k) && after[Respelled(k)] == before[k0];
  }

  /** The WebSocket branch of `ProxyHandler`: each header name containing
      "Websocket" is replaced by its "WebSocket" spelling, keeping its values. */
  method RespellWebSocketKeys(r: Request)
    modifies r`header
    ensures RespelledHeader(old(r.header), r.header)
  {
    ghost var before := r.header;
    RespellingCleans();
    RenameStart(before, Misspelled, Respelled);
    var todo := r.header.Keys;
    while todo != {}
      invariant RenameInvariant(before, r.header, todo, Misspelled, Respelled)
      decreases todo
    {
      var k :| k in todo;
      RenameStep(before, r.header, todo, k, Misspelled, Respelled);
      if Misspelled(k) {
        var fixed := Respelled(k);
        var v := r.header[k];
        r.header := r.header[fixed := v];
        r.header := r.header - {k};
      }
      todo := todo - {k};
    }
    RenameEnd(before, r.header, Misspelled, Respelled);
  }

  /** The state of the renaming loop with the names in `todo` still to
      visit: flagged names not yet visited keep their own value, visited
      ones are present renamed, other names stay, and every unflagged name
      holds the value of a name renamed to it. */
  ghost predicate RenameInvariant(before: map<string, seq<string>>, h: map<string, seq<string>>, todo: set<string>,
                                  bad: string -> bool, fix: string -> string)
  {
    && todo <= before.Keys
    && (forall k :: k in todo && bad(k) ==> k in h && h[k] == before[k])
    && (forall k :: k in h && bad(k) ==> k in todo)
    && (forall k :: k in before && !bad(k) ==> k in h)
    && (forall k :: k in before && bad(k) && k !in todo ==> fix(k) in h)
    && Origins(before, h, bad, fix)
    && BadOrigins(before, h, todo, bad, fix)
  }

  /** Every visited flagged name's new name holds the value of a flagged
      name renamed to it. */
  ghost predicate BadOrigins(before: map<string, seq<string>>, h: map<string, seq<string>>, todo: set<string>,
                             bad: string -> bool, fix: string -> string)
  {
    forall k :: k in before && bad(k) && k !in todo ==>
      fix(k) in h && exists k0 :: k0 in before && bad(k0) && fix(k0) == fix(k) && h[fix(k)] == before[k0]
  }

  /** Every unflagged name of `h` holds the value of a name renamed to it. */
  ghost predicate Origins(before: map<string, seq<string>>, h: map<string, seq<string>>,
                          bad: string -> bool, fix: string -> string)
  {
    forall k' :: k' in h && !bad(k') ==> exists k :: k in before && fix(k) == k' && h[k'] == before[k]
  }

  lemma RenameStart(before: map<string, seq<string>>, bad: string -> bool, fix: string -> string)
    requires Cleans(bad, fix)
    ensures RenameInvariant(before, before, before.Keys, bad, fix)
  {
    forall k' | k' in before && !bad(k') ensures exists k :: k in before && fix(k) == k' && before[k'] == before[k] {
      assert fix(k') == k';
    }
  }

  lemma RenameStep(before: map<string, seq<string>>, h: map<string, seq<string>>, todo: set<string>, k: string,
                   bad: string -> bool, fix: string -> string)
    requires Cleans(bad, fix)
    requires RenameInvariant(before, h, todo, bad, fix) && k in todo
    ensures bad(k) ==> k in h
    ensures RenameInvariant(before, if bad(k) then h[fix(k) := h[k]] - {k} else h, todo - {k}, bad, fix)
  {
    if bad(k) {
      RenameStepOrigins(before, h, k, bad, fix);
      RenameStepBadOrigins(before, h, todo, k, bad, fix);
    }
  }

  /** Moving a flagged name's value to its new name keeps every value's origin. */
  lemma RenameStepOrigins(before: map<string, seq<string>>, h: map<string, seq<string>>, k: string,
                          bad: string -> bool, fix: string -> string)
    requires Cleans(bad, fix)
    requires Origins(before, h, bad, fix)
    requires k in before && k in h && h[k] == before[k]
    ensures Origins(before, h[fix(k) := h[k]] - {k}, bad, fix)
  {
    var fixed := fix(k);
    var h' := h[fixed := h[k]] - {k};
    forall k' | k' in h' && !bad(k') ensures exists k0 :: k0 in before && fix(k0) == k' && h'[k'] == before[k0] {
      if k' == fixed {
        assert fix(k) == k' && h'[k'] == before[k];
      } else {
        assert k' in h && h'[k'] == h[k'];
      }
    }
  }

  /** Moving a flagged name's value to its new name overrides whatever that
      name held, so it now holds a flagged name's value. */
  lemma RenameStepBadOrigins(before: map<string, seq<string>>, h: map<string, seq<string>>, todo: set<string>,
                             k: string, bad: string -> bool, fix: string -> string)
    requires Cleans(bad, fix)
    requires BadOrigins(before, h, todo, bad, fix)
    requires k in todo && k in before && bad(k) && k in h && h[k] == before[k]
    ensures BadOrigins(before, h[fix(k) := h[k]] - {k}, todo - {k}, bad, fix)
  {
    var h' := h[fix(k) := h[k]] - {k};
    forall k1 | k1 in before && bad(k1) && k1 !in todo - {k}
      ensures fix(k1) in h' && exists k0 :: k0 in before && bad(k0) && fix(k0) == fix(k1) && h'[fix(k1)] == before[k0]
    {
      assert !bad(fix(k1)) && !bad(fix(k));
      if fix(k1) == fix(k) {
        assert h'[fix(k1)] == before[k];
      } else {
        var k0 :| k0 in before && bad(k0) && fix(k0) == fix(k1) && h[fix(k1)] == before[k0];
        assert h'[fix(k1)] == h[fix(k1)];
      }
    }
  }

  lemma RenameEnd(before: map<string, seq<string>>, h: map<string, seq<string>>, bad: string -> bool, fix: string -> string)
    requires Cleans(bad, fix)
    requires RenameInvariant(before, h, {}, bad, fix)
    ensures Renamed(before, h, bad, fix)
  {
    forall k' | k' in h ensures !bad(k') && exists k :: k in before && fix(k) == k' && h[k'] == before[k] {
      assert k' !in {};
    }
    forall k | k in before && bad(k)
      ensures exists k0 :: k0 in before && bad(k0) && fix(k0) == fix(k) && h[fix(k)] == before[k0]
    {
      assert k !in {};
    }
  }

  // ---------------------------------------------------------------------------
  // Dispatch

  /** What the proxy handler does with a request. */
  datatype Outcome =
    | NotFound
    | InternalError(message: string)
    | ForwardWebSocket(target: string)
    | ForwardHTTP(target: string)

  /** The handler returned by `ProxyHandler`, for the request `r` routed under
      `subdomain`. `isWebSocket` is `wsutil.IsWebSocketRequest`, which reads
      the header after templating. */
  method ServeProxy(upstreams: map<string, Upstream>, subdomain: string, r: Request, session: Session,
                    render: (Template, Session) -> Result<string, string>,
                    isWebSocket: map<string, seq<string>> -> bool)
    returns (out: Outcome)
    modifies r`header
    ensures subdomain !in upstreams ==> out == NotFound && r.header == old(r.header)
    ensures subdomain in upstreams ==>
      (out.InternalError? <==> !AllRender(upstreams[subdomain].headerTemplates, session, render))
    ensures subdomain in upstreams && AllRender(upstreams[subdomain].headerTemplates, session, render) ==>
      var u := upstreams[subdomain];
      var h := Templated(old(r.header), u.headerTemplates, session, render);
      && out == (if u.wsProxy.Some? && isWebSocket(h) then ForwardWebSocket(u.wsProxy.value)
                 else if u.httpProxy.Some? then ForwardHTTP(u.httpProxy.value)
                 else NotFound)
      && (out.ForwardWebSocket? ==> RespelledHeader(h, r.header))
      && (!out.ForwardWebSocket? ==> r.header == h)
  {
    if subdomain !in upstreams {
      return NotFound;
    }
    var upstream := upstreams[subdomain];
    if |upstream.headerTemplates| > 0 {
      var err := ApplyTemplates(r, upstream.headerTemplates, session, render);
      if err.Some? {
        return InternalError(err.value);
      }
    } else {
      assert r.header == Templated(old(r.header), upstream.headerTemplates, session, render);
    }
    if upstream.wsProxy.Some? && isWebSocket(r.header) {
      RespellWebSocketKeys(r);
      return ForwardWebSocket(upstream.wsProxy.value);
    }
    if upstream.httpProxy.Some? {
      return ForwardHTTP(upstream.httpProxy.value);
    }
    return NotFound;
  }

  // ---------------------------------------------------------------------------
  // The authentication matcher

  /** `requiresAuth`: look up the host's first label; an unknown name
      requires authentication (fail closed). */
  function RequiresAuth(specs: map<string, UpstreamSpec>, host: string): (b: bool)
    ensures !b ==> Split(host, '.')[0] in specs && !specs[Split(host, '.')[0]].auth
    ensures Split(host, '.')[0] !in specs ==> b
  {
    var subdomain := Split(host, '.')[0];
    if subdomain in specs then specs[subdomain].auth else true
  }

  /** For a host `name.rest`, the matcher decides by `name` alone. */
  lemma RequiresAuthByLabel(specs: map<string, UpstreamSpec>, name: string, rest: string)
    requires '.' !in name
    ensures RequiresAuth(specs, name + "." + rest) == (name !in specs || specs[name].auth)
  {
    assert name + "." + rest == name + ['.'] + rest;
    SplitAtFirst(name, '.', rest);
  }
}
