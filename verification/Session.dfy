// The --session switch: a comma-separated list of URLs, each read into one
// session configuration.

module Session {
  import opened Text
  import opened Strings
  import opened UrlParse
  import opened UrlTheorems
  import opened UrlQuery

  datatype SessionConfig = SessionConfig(
    protocol: string, userName: string, servers: seq<string>, defaultPort: string, serviceName: string,
    applicationId: string, instanceId: string, position: string,
    sessionName: string, connectionName: string, consumerName: string)

  // ---- What one URL and a list of URLs configure ----

  function WithPair(config: SessionConfig, key: string, value: string): SessionConfig {
    if key == "application-id" then config.(applicationId := value)
    else if key == "instance-id" then config.(instanceId := value)
    else if key == "position" then config.(position := value)
    else config
  }

  function WithPairs(config: SessionConfig, pairs: seq<(string, string)>): SessionConfig
    decreases |pairs|
  {
    if pairs == [] then config else WithPairs(WithPair(config, pairs[0].0, pairs[0].1), pairs[1..])
  }

  function Named(config: SessionConfig): SessionConfig {
    config.(sessionName := "Session" + config.serviceName,
            connectionName := "Connection" + config.serviceName,
            consumerName := "Consumer" + config.serviceName)
  }

  function ServiceIn(url: string, path: Component): string
    requires Inside(url, path)
  {
    if path.IsNonempty() then TextOf(url, FileNameIn(url, path.begin, path.End())) else ""
  }

  /** The configuration before the query is looked at. */
  function NetworkOf(url: string, p: Parsed, logname: string): SessionConfig
    requires Inside(url, p.path)
  {
    SessionConfig(
      TextOf(url, p.scheme),
      if p.username.IsValid() then TextOf(url, p.username) else logname,
      [if p.host.IsValid() then TextOf(url, p.host) else "localhost"],
      TextOf(url, p.port),
      ServiceIn(url, p.path),
      "", "", "", "", "", "")
  }

  function ConfigOf(url: string, logname: string): SessionConfig {
    var p := StandardURL(url);
    PathIsInside(url);
    var config := NetworkOf(url, p, logname);
    Named(if p.query.IsValid() then WithPairs(config, PairsIn(url, p.query.begin, p.query.End())) else config)
  }

  function ConfigsOf(urls: seq<string>, logname: string): seq<SessionConfig> {
    if urls == [] then [] else [ConfigOf(urls[0], logname)] + ConfigsOf(urls[1..], logname)
  }

  function SessionsOf(session: string, logname: string): seq<SessionConfig> {
    if session == "" then [] else ConfigsOf(Trimmed(Split(session, ',')), logname)
  }

  lemma PathIsInside(s: string)
    ensures Inside(s, StandardURL(s).path)
    ensures var query := StandardURL(s).query; query.IsValid() ==> 0 <= query.begin <= query.End() <= |s|
  {
  }

  // ---- The reading loop ----

  method ReadSession(url: string, logname: string) returns (config: SessionConfig)
    ensures config == ConfigOf(url, logname)
  {
    var parsed := ParseStandardURL(url);
    PathIsInside(url);
    config := ReadNetwork(url, parsed, logname);
    if parsed.query.IsValid() {
      config := ReadQuery(url, parsed.query, config);
    }
    config := config.(sessionName := "Session" + config.serviceName);
    config := config.(connectionName := "Connection" + config.serviceName);
    config := config.(consumerName := "Consumer" + config.serviceName);
  }

  method ReadNetwork(url: string, parsed: Parsed, logname: string) returns (config: SessionConfig)
    requires Inside(url, parsed.path)
    ensures config == NetworkOf(url, parsed, logname)
  {
    var protocol, userName, servers, defaultPort, serviceName := "", "", [], "", "";
    if parsed.scheme.IsValid() {
      protocol := TextOf(url, parsed.scheme);
    }
    if parsed.username.IsValid() {
      userName := TextOf(url, parsed.username);
    } else {
      userName := logname;
    }
    if parsed.host.IsValid() {
      servers := servers + [TextOf(url, parsed.host)];
    } else {
      servers := servers + ["localhost"];
    }
    if parsed.port.IsValid() {
      defaultPort := TextOf(url, parsed.port);
    }
    if parsed.path.IsValid() {
      var fileName := ExtractFileName(url, parsed.path);
      if fileName.IsValid() {
        serviceName := TextOf(url, fileName);
      }
    }
    config := SessionConfig(protocol, userName, servers, defaultPort, serviceName, "", "", "", "", "", "");
  }

  method ReadQuery(url: string, query0: Component, config0: SessionConfig) returns (config: SessionConfig)
    requires 0 <= query0.begin <= query0.End() <= |url|
    ensures config == WithPairs(config0, PairsIn(url, query0.begin, query0.End()))
  {
    config := config0;
    var query, keyRange, valueRange := query0, NONE, NONE;
    var found := true;
    while found
      invariant 0 <= query.begin <= query.End() == query0.End()
      invariant WithPairs(config, PairsIn(url, query.begin, query.End()))
             == WithPairs(config0, PairsIn(url, query0.begin, query0.End()))
      invariant !found ==> query.len == 0
      decreases query.len, found
    {
      found, query, keyRange, valueRange := ExtractQueryKeyValue(url, query, keyRange, valueRange);
      if found {
        var key, value := TextOf(url, keyRange), TextOf(url, valueRange);
        if key == "application-id" {
          config := config.(applicationId := value);
        } else if key == "instance-id" {
          config := config.(instanceId := value);
        } else if key == "position" {
          config := config.(position := value);
        }
      }
    }
  }

  method ReadSessions(session: string, logname: string) returns (configs: seq<SessionConfig>)
    ensures configs == SessionsOf(session, logname)
  {
    configs := [];
    if session != "" {
      var sessions := SplitString(session, ',');
      for i := 0 to |sessions|
        invariant configs + ConfigsOf(sessions[i..], logname) == ConfigsOf(sessions, logname)
      {
        var config := ReadSession(sessions[i], logname);
        NextConfig(configs, sessions, i, logname);
        configs := configs + [config];
      }
    }
  }

  lemma NextConfig(done: seq<SessionConfig>, urls: seq<string>, i: nat, logname: string)
    requires i < |urls|
    ensures done + ConfigsOf(urls[i..], logname)
         == (done + [ConfigOf(urls[i], logname)]) + ConfigsOf(urls[i + 1..], logname)
  {
  }
}
