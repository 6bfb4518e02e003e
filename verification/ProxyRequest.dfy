/** How the proxy reads a GET request and what it sends on to the web server,
    Assignment3/jwh139-concurrent-proxy/proxy.c: the request line, the URL in two attempts, and
    the rewriting of the request. Thread mode and process mode have the same code. */
module ProxyRequest {
  import opened Options
  import opened Scan

  /** The arrays method, url, version, host and resource, and the arrays buffer and request. */
  const FIELD_SIZE := 1024
  const BUFFER_SIZE := 10000
  const INT_MAX := 0x7fff_ffff

  /** Refused is an error message and the end of the connection, Tunnelled the CONNECT branch,
      which is not part of this model. Undefined stands for input on which the C code has no
      defined behaviour: a field or request too long for its array, a port no int holds, a word
      of the request line that is used although it is missing, a request without a newline. */
  datatype Outcome<+T> = Value(value: T) | Refused | Tunnelled | Undefined

  // ---------------------------------------------------------------- the URL

  /** The variables the two sscanf calls write. */
  datatype Target = Target(host: string, port: int, resource: string)

  const DEFAULT_PORT := 80

  /** sscanf(url, "http://%[^:/]:%d%s", host, &port, resource): the number of conversions,
      and the variables, which keep what was stored before a failure. */
  function AttemptWithPort(url: string, was: Target): (int, Target) {
    match Literal(url, "http://")
    case None => (0, was)
    case Some(s1) =>
      match NotColonSlash(s1)
      case None => (0, was)
      case Some(host) => PortAndResource(host.rest, was.(host := host.value))
  }

  /** The rest of the format, ":%d%s". */
  function PortAndResource(rest: string, t1: Target): (int, Target) {
    match Literal(rest, ":")
    case None => (1, t1)
    case Some(s2) =>
      match Decimal(s2)
      case None => (1, t1)
      case Some(port) =>
        var t2 := t1.(port := port.value);
        match Word(port.rest)
        case None => (2, t2)
        case Some(resource) => (3, t2.(resource := resource.value))
  }

  /** sscanf(url, "http://%[^:/]%s", host, resource) */
  function AttemptWithoutPort(url: string, was: Target): (int, Target) {
    match Literal(url, "http://")
    case None => (0, was)
    case Some(s1) =>
      match NotColonSlash(s1)
      case None => (0, was)
      case Some(host) =>
        var t1 := was.(host := host.value);
        match Word(host.rest)
        case None => (1, t1)
        case Some(resource) => (2, t1.(resource := resource.value))
  }

  /** The two attempts on a URL that its array holds; Refused is "Invalid url format". */
  function ParseUrl(url: string, uninitialised: Target): Outcome<Target>
    requires |url| < FIELD_SIZE
  {
    var (n, t) := AttemptWithPort(url, uninitialised.(port := DEFAULT_PORT));
    if !FitsInt(t.port) then Undefined
    else if n == 3 then Value(t)
    else
      var (m, u) := AttemptWithoutPort(url, t);
      if m == 2 then Value(u) else Refused
  }

  predicate FitsInt(x: int) {
    -INT_MAX - 1 <= x <= INT_MAX
  }

  lemma AttemptsStayWithin(url: string, was: Target)
    ensures var (n, t) := AttemptWithPort(url, was);
            n == 3 ==> |t.host| + |t.resource| < |url|
    ensures var (m, u) := AttemptWithoutPort(url, was);
            m == 2 ==> |u.host| + |u.resource| < |url| && u.port == was.port
  {}

  /** host and resource are pieces of the URL, so arrays as long as the one that holds it hold
      them; and a port that is returned is an int. */
  lemma TargetFitsArrays(url: string, uninitialised: Target)
    requires |url| < FIELD_SIZE && ParseUrl(url, uninitialised).Value?
    ensures var t := ParseUrl(url, uninitialised).value;
            |t.host| + |t.resource| < |url| < 1024 && -0x8000_0000 <= t.port < 0x8000_0000
  {
    var was := uninitialised.(port := DEFAULT_PORT);
    AttemptsStayWithin(url, was);
    AttemptsStayWithin(url, AttemptWithPort(url, was).1);
  }

  predicate IsHost(host: string) {
    Visible(host) && forall k :: 0 <= k < |host| ==> host[k] != ':' && host[k] != '/'
  }

  /** The path of an http URI: empty, or visible text that starts with a slash. */
  predicate IsPath(path: string) {
    path == "" || (Visible(path) && path[0] == '/')
  }

  lemma HostScans(host: string, rest: string)
    requires IsHost(host) && (rest == "" || rest[0] in {':', '/'})
    ensures Literal("http://" + host + rest, "http://") == Some(host + rest)
    ensures NotColonSlash(host + rest) == Some(Match(host, rest))
  {
    assert "http://" + host + rest == "http://" + (host + rest);
    SpanOf(host, rest, c => c != ':' && c != '/');
    assert (host + rest)[..|host|] == host && (host + rest)[|host|..] == rest;
  }

  /** The chain of conversions, given what each of them sees. */
  lemma WithPortChain(url: string, s1: string, host: Match<string>, s2: string, port: Match<int>, was: Target)
    requires Literal(url, "http://") == Some(s1) && NotColonSlash(s1) == Some(host)
    requires Literal(host.rest, ":") == Some(s2) && Decimal(s2) == Some(port)
    ensures AttemptWithPort(url, was)
            == match Word(port.rest)
               case None => (2, Target(host.value, port.value, was.resource))
               case Some(resource) => (3, Target(host.value, port.value, resource.value))
  {
    PortChain(host.rest, s2, port, was.(host := host.value));
  }

  lemma PortChain(rest: string, s2: string, port: Match<int>, t1: Target)
    requires Literal(rest, ":") == Some(s2) && Decimal(s2) == Some(port)
    ensures PortAndResource(rest, t1)
            == match Word(port.rest)
               case None => (2, t1.(port := port.value))
               case Some(resource) => (3, t1.(port := port.value, resource := resource.value))
  {}

  lemma ColonScans(rest: string)
    ensures Literal(":" + rest, ":") == Some(rest)
  {
    assert (":" + rest)[1..] == rest;
  }

  lemma PathScans(path: string)
    requires IsPath(path)
    ensures Word(path) == if path == "" then None else Some(Match(path, ""))
  {
    if path != "" {
      assert path + "" == path;
      WordScans(path, "");
    }
  }

  lemma WithPortOn(host: string, port: nat, path: string, was: Target)
    requires IsHost(host) && IsPath(path)
    ensures AttemptWithPort("http://" + host + (":" + Numeral(port) + path), was)
            == if path == "" then (2, Target(host, port, was.resource)) else (3, Target(host, port, path))
  {
    var digits := Numeral(port) + path;
    var tail := ":" + digits;
    assert tail == ":" + Numeral(port) + path;
    HostScans(host, tail);
    ColonScans(digits);
    NumeralScans(port, path);
    PathScans(path);
    WithPortChain("http://" + host + tail, host + tail, Match(host, tail), digits, Match(port, path), was);
  }

  lemma WithoutPortOn(host: string, tail: string, was: Target)
    requires IsHost(host) && Visible(tail) && tail[0] in {':', '/'}
    ensures AttemptWithoutPort("http://" + host + tail, was) == (2, Target(host, was.port, tail))
  {
    HostScans(host, tail);
    assert tail + "" == tail;
    WordScans(tail, "");
  }

  lemma PortIsVisible(port: nat)
    ensures Visible(":" + Numeral(port))
  {
    var digits := Numeral(port);
    forall k | 0 <= k < |":" + digits| ensures !IsSpace((":" + digits)[k]) {
      if k > 0 {
        assert (":" + digits)[k] == digits[k - 1] && IsDigit(digits[k - 1]);
      }
    }
  }

  /** A URL with a port comes back as the same triple exactly when it has a path and an int
      holds the port. Without a path the first attempt has already stored the port, and the
      second takes ":port" for the resource. */
  lemma PortUrlRoundTrip(host: string, port: nat, path: string, uninitialised: Target)
    requires IsHost(host) && IsPath(path)
    requires |"http://" + host + (":" + Numeral(port) + path)| < FIELD_SIZE
    ensures var parsed := ParseUrl("http://" + host + (":" + Numeral(port) + path), uninitialised);
            && (parsed == Value(Target(host, port, path)) <==> path != "" && port < 0x8000_0000)
            && (path == "" && port < 0x8000_0000 ==>
                  parsed == Value(Target(host, port, ":" + Numeral(port))))
            && (port >= 0x8000_0000 ==> parsed == Undefined)
  {
    WithPortOn(host, port, path, uninitialised.(port := DEFAULT_PORT));
    if path == "" {
      var tail := ":" + Numeral(port);
      assert tail + path == tail;
      PortIsVisible(port);
      WithoutPortOn(host, tail, Target(host, port, uninitialised.resource));
    }
  }

  /** A URL without a port comes back with the default port, although the failed first attempt
      has already written the host, exactly when it has a path; without one it is refused. */
  lemma PlainUrlRoundTrip(host: string, path: string, uninitialised: Target)
    requires IsHost(host) && IsPath(path) && |"http://" + host + path| < FIELD_SIZE
    ensures var parsed := ParseUrl("http://" + host + path, uninitialised);
            && (parsed == Value(Target(host, 80, path)) <==> path != "")
            && (path == "" ==> parsed == Refused)
  {
    HostScans(host, path);
    assert Literal(path, ":") == None;
    PathScans(path);
  }

  /** http:// in front, then a host of at least one character, then a colon or a slash. */
  ghost predicate HasHostAndMore(url: string) {
    && |url| > 7 && url[..7] == "http://" && url[7] !in {':', '/'}
    && exists k :: 7 < k < |url| && url[k] in {':', '/'}
  }

  lemma HostSplits(s: string)
    ensures s == "" || s[0] in {':', '/'} ==> NotColonSlash(s) == None
    ensures s != "" && s[0] !in {':', '/'} ==>
              && NotColonSlash(s).Some?
              && var rest := NotColonSlash(s).value.rest;
                 && |rest| < |s| && rest == s[|s| - |rest|..]
                 && (rest == "" <==> forall k :: 0 < k < |s| ==> s[k] !in {':', '/'})
  {
    var k := Span(s, c => c != ':' && c != '/');
    if s != "" && s[0] !in {':', '/'} && k < |s| {
      assert s[k] in {':', '/'};
    }
  }

  /** The shape as the conversions see it. */
  lemma ShapeScans(url: string)
    ensures HasHostAndMore(url) <==>
            && Literal(url, "http://").Some?
            && NotColonSlash(Literal(url, "http://").value).Some?
            && NotColonSlash(Literal(url, "http://").value).value.rest != ""
  {
    if |url| >= 7 && url[..7] == "http://" {
      var s := url[7..];
      assert Literal(url, "http://") == Some(s);
      HostSplits(s);
      assert forall k :: 0 <= k < |s| ==> s[k] == url[7 + k];
      if HasHostAndMore(url) {
        var k :| 7 < k < |url| && url[k] in {':', '/'};
        assert s[k - 7] in {':', '/'};
      }
    }
  }

  lemma NoHostNoTarget(url: string, was: Target)
    requires Literal(url, "http://").None? || NotColonSlash(Literal(url, "http://").value).None?
    ensures AttemptWithPort(url, was) == AttemptWithoutPort(url, was) == (0, was)
  {}

  lemma HostAlone(url: string, was: Target)
    requires Literal(url, "http://").Some? && NotColonSlash(Literal(url, "http://").value).Some?
    requires NotColonSlash(Literal(url, "http://").value).value.rest == ""
    ensures AttemptWithPort(url, was).0 == AttemptWithoutPort(url, was).0 == 1
    ensures AttemptWithPort(url, was).1.port == was.port
    ensures forall u :: AttemptWithoutPort(url, u).0 == 1
  {
    assert Word("") == None && Literal("", ":") == None;
  }

  lemma HostAndMore(url: string, s1: string, host: Match<string>, was: Target)
    requires Literal(url, "http://") == Some(s1) && NotColonSlash(s1) == Some(host)
    requires Visible(host.rest)
    ensures AttemptWithoutPort(url, was) == (2, Target(host.value, was.port, host.rest))
  {
    assert host.rest + "" == host.rest;
    WordScans(host.rest, "");
  }

  lemma TailVisible(url: string, tail: string)
    requires Visible(url) && 0 < |tail| <= |url| && tail == url[|url| - |tail|..]
    ensures Visible(tail)
  {
    forall k | 0 <= k < |tail| ensures !IsSpace(tail[k]) {
      assert tail[k] == url[|url| - |tail| + k];
    }
  }

  lemma MoreIsVisible(url: string, s1: string, host: Match<string>)
    requires Visible(url) && Literal(url, "http://") == Some(s1) && NotColonSlash(s1) == Some(host)
    requires host.rest != ""
    ensures Visible(host.rest)
  {
    HostSplits(s1);
    assert s1 == url[7..];
    assert host.rest == url[|url| - |host.rest|..];
    TailVisible(url, host.rest);
  }

  /** "Invalid url format" exactly for URLs that are not of this shape; and such a URL is the only
      one whose port can be out of range. */
  lemma UrlRefusedExactly(url: string, uninitialised: Target)
    requires Visible(url) && |url| < FIELD_SIZE
    ensures ParseUrl(url, uninitialised) == Refused <==> !HasHostAndMore(url)
    ensures ParseUrl(url, uninitialised) != Tunnelled
  {
    var was := uninitialised.(port := DEFAULT_PORT);
    var t := AttemptWithPort(url, was).1;
    ShapeScans(url);
    if HasHostAndMore(url) {
      var s1 := Literal(url, "http://").value;
      MoreIsVisible(url, s1, NotColonSlash(s1).value);
      HostAndMore(url, s1, NotColonSlash(s1).value, t);
    } else if Literal(url, "http://").Some? && NotColonSlash(Literal(url, "http://").value).Some? {
      HostAlone(url, was);
    } else {
      NoHostNoTarget(url, was);
    }
  }

  lemma NotHttp(url: string, k: nat)
    requires k < 7 && k < |url| && url[k] != "http://"[k]
    ensures !HasHostAndMore(url)
  {
    if |url| > 7 {
      assert url[..7][k] == url[k];
    }
  }

  /** A path alone, another scheme, no host, and a host alone. */
  lemma RefusedByName(rest: string, host: string, uninitialised: Target)
    requires Visible(rest) && |rest| < 1000 && IsHost(host) && |host| < 1000
    ensures ParseUrl("/" + rest, uninitialised) == ParseUrl("https://" + rest, uninitialised) == Refused
    ensures ParseUrl("http:///" + rest, uninitialised) == ParseUrl("http://" + host, uninitialised) == Refused
  {
    assert Visible("/") && Visible("https://") && Visible("http:///") && Visible("http://");
    NotHttp("/" + rest, 0);
    NotHttp("https://" + rest, 4);
    assert ("http:///" + rest)[7] == '/';
    assert forall k :: 7 < k < |"http://" + host| ==> ("http://" + host)[k] == host[k - 7];
    UrlRefusedExactly("/" + rest, uninitialised);
    UrlRefusedExactly("https://" + rest, uninitialised);
    UrlRefusedExactly("http:///" + rest, uninitialised);
    UrlRefusedExactly("http://" + host, uninitialised);
  }

  // ---------------------------------------------------------------- the request

  /** The words sscanf stored; url and version may be missing. */
  datatype RequestLine = RequestLine(verb: string, url: Option<string>, version: Option<string>)

  /** sscanf(buffer, "%s %s %s", method, url, version); None when not even a method is there. */
  function ParseRequestLine(buffer: string): Option<RequestLine> {
    match Word(buffer)
    case None => None
    case Some(verb) =>
      match Word(verb.rest)
      case None => Some(RequestLine(verb.value, None, None))
      case Some(url) =>
        match Word(url.rest)
        case None => Some(RequestLine(verb.value, Some(url.value), None))
        case Some(version) => Some(RequestLine(verb.value, Some(url.value), Some(version.value)))
  }

  /** strncasecmp(method, "GET", 3) == 0 */
  predicate IsGet(verb: string) {
    |verb| >= 3 && verb[0] in {'G', 'g'} && verb[1] in {'E', 'e'} && verb[2] in {'T', 't'}
  }

  /** strncasecmp(method, "CONNECT", 7) == 0 */
  predicate IsConnect(verb: string) {
    && |verb| >= 7 && verb[0] in {'C', 'c'} && verb[1] in {'O', 'o'} && verb[2] in {'N', 'n'}
    && verb[3] in {'N', 'n'} && verb[4] in {'E', 'e'} && verb[5] in {'C', 'c'} && verb[6] in {'T', 't'}
  }

  /** ASCII capitals. */
  function Upper(s: string): string {
    seq(|s|, k requires 0 <= k < |s| => if 'a' <= s[k] <= 'z' then (s[k] as int - 32) as char else s[k])
  }

  /** The word, which is in capitals, begins the verb in any mixture of cases. */
  predicate BeginsWith(verb: string, word: string) {
    |verb| >= |word| && Upper(verb[..|word|]) == word
  }

  lemma GetInAnyCase(verb: string)
    ensures IsGet(verb) <==> BeginsWith(verb, "GET")
  {
    if |verb| >= 3 {
      var u := Upper(verb[..3]);
      assert u == [u[0], u[1], u[2]];
      if BeginsWith(verb, "GET") {
        assert u[0] == 'G' && u[1] == 'E' && u[2] == 'T';
      }
    }
  }

  lemma ConnectInAnyCase(verb: string)
    ensures IsConnect(verb) <==> BeginsWith(verb, "CONNECT")
  {
    if |verb| >= 7 {
      var u := Upper(verb[..7]);
      assert u == [u[0], u[1], u[2], u[3], u[4], u[5], u[6]];
      if BeginsWith(verb, "CONNECT") {
        assert u[0] == 'C' && u[1] == 'O' && u[2] == 'N' && u[3] == 'N';
        assert u[4] == 'E' && u[5] == 'C' && u[6] == 'T';
      }
    }
  }

  const KEEP_ALIVE := "Connection: keep-alive\r\n"
  const CLOSE := "Connection: close\r\n"

  function OriginLine(resource: string, version: string): string {
    "GET " + resource + " " + version + "\r\n"
  }

  /** The text with its leftmost keep-alive header replaced, if it has one. */
  function WithClose(text: string): string {
    match Find(text, KEEP_ALIVE)
    case None => text
    case Some(k) => text[..k] + CLOSE + text[k + |KEEP_ALIVE|..]
  }

  /** Line 102: the text behind the first newline, which the code takes for granted. */
  function Remaining(buffer: string): string
    requires '\n' in buffer
  {
    buffer[Span(buffer, c => c != '\n') + 1..]
  }

  lemma RemainingBehindLine(line: string, text: string)
    requires forall k :: 0 <= k < |line| ==> line[k] != '\n'
    ensures '\n' in line + "\n" + text && Remaining(line + "\n" + text) == text
  {
    var buffer := line + "\n" + text;
    assert buffer == line + ("\n" + text);
    SpanOf(line, "\n" + text, c => c != '\n');
    assert buffer[|line|] == '\n' && buffer[|line| + 1..] == text;
  }

  /** The request as it leaves the proxy. Without a keep-alive header the request line is lost. */
  function Rewritten(remaining: string, resource: string, version: string): string {
    if Find(remaining, KEEP_ALIVE).Some? then OriginLine(resource, version) + WithClose(remaining)
    else remaining
  }

  /** Lines 99-114. When there is no keep-alive header, strcpy overwrites the request line. */
  method RewriteRequest(buffer: string, resource: string, version: string) returns (request: string)
    requires '\n' in buffer
    ensures request == Rewritten(Remaining(buffer), resource, version)
    ensures forall k: nat :: LeftmostAt(Remaining(buffer), "Connection: keep-alive\r\n", k) ==>
              request == "GET " + resource + " " + version + "\r\n"
                         + (Remaining(buffer)[..k] + "Connection: close\r\n" + Remaining(buffer)[k + 24..])
    ensures (forall k: nat :: !OccursAt(Remaining(buffer), "Connection: keep-alive\r\n", k)) ==>
              request == Remaining(buffer)
  {
    request := "GET " + resource + " " + version + "\r\n";
    var remaining := Remaining(buffer);
    var modReqLen := 0;
    var header := Find(remaining, KEEP_ALIVE);
    var rest := "";
    if header.Some? {
      modReqLen := header.value;
      request := request + remaining[..modReqLen];
      request := request + "Connection: close\r\n";
      rest := remaining[header.value + |KEEP_ALIVE|..];
    } else {
      request := remaining;
      modReqLen := |remaining|;
    }
    request := request + rest;
    assert header.Some? ==>
        request == OriginLine(resource, version) + (remaining[..modReqLen] + CLOSE + rest);
    OnlyTheHeaderChanges(remaining);
  }

  predicate FieldFits(field: Option<string>) {
    field.Some? ==> |field.value| < FIELD_SIZE
  }

  predicate LineFits(line: RequestLine) {
    |line.verb| < FIELD_SIZE && FieldFits(line.url) && FieldFits(line.version)
  }

  /** What the proxy sends to the web server for a buffer that read(2) filled. A missing word
      matters only where it is used: the method is judged first, then the URL. */
  function Forwarded(buffer: string, uninitialised: Target): (sent: Outcome<string>)
    requires |buffer| < BUFFER_SIZE
    ensures sent.Value? ==> |sent.value| < BUFFER_SIZE
  {
    match ParseRequestLine(buffer)
    case None => Undefined
    case Some(line) => Judged(buffer, line, uninitialised)
  }

  function Judged(buffer: string, line: RequestLine, uninitialised: Target): (sent: Outcome<string>)
    ensures sent.Value? ==> |sent.value| < BUFFER_SIZE
  {
    if !LineFits(line) then Undefined
    else if IsGet(line.verb) then ForwardedGet(buffer, line, uninitialised)
    else if IsConnect(line.verb) then Tunnelled
    else Refused
  }

  function ForwardedGet(buffer: string, line: RequestLine, uninitialised: Target): (sent: Outcome<string>)
    requires LineFits(line)
    ensures sent.Value? ==> |sent.value| < BUFFER_SIZE
  {
    if line.url.None? then Undefined
    else
      match ParseUrl(line.url.value, uninitialised)
      case Refused => Refused
      case Value(target) =>
        if line.version.None? || '\n' !in buffer then Undefined
        else
          var text := Rewritten(Remaining(buffer), target.resource, line.version.value);
          if |text| < BUFFER_SIZE then Value(text) else Undefined
      case _ => Undefined
  }

  /** The same up to the request it sends, with the variables sscanf fills kept in `target`: what
      the first attempt stored before it failed is still there in the second. */
  method HandleRequest(buffer: string, uninitialised: Target) returns (request: Outcome<string>)
    requires |buffer| < BUFFER_SIZE
    ensures request == Forwarded(buffer, uninitialised)
  {
    var scanned := ParseRequestLine(buffer);
    if scanned.None? || !LineFits(scanned.value) {
      return Undefined;
    }
    var line := scanned.value;
    if IsGet(line.verb) {
      request := HandleGet(buffer, line, uninitialised);
    } else if IsConnect(line.verb) {
      return Tunnelled;
    } else {
      return Refused;
    }
  }

  /** The GET branch. */
  method HandleGet(buffer: string, line: RequestLine, uninitialised: Target) returns (request: Outcome<string>)
    requires LineFits(line)
    ensures request == ForwardedGet(buffer, line, uninitialised)
  {
    if line.url.None? {
      return Undefined;
    }
    var url := line.url.value;
    var target := uninitialised.(port := DEFAULT_PORT);
    var first := AttemptWithPort(url, target);
    var conversions := first.0;
    target := first.1;
    if !FitsInt(target.port) {
      return Undefined;
    }
    if conversions != 3 {
      var second := AttemptWithoutPort(url, target);
      conversions, target := second.0, second.1;
      if conversions != 2 {
        return Refused;
      }
    }
    if line.version.None? || '\n' !in buffer {
      return Undefined;
    }
    var text := RewriteRequest(buffer, target.resource, line.version.value);
    return if |text| < BUFFER_SIZE then Value(text) else Undefined;
  }

  lemma FieldsStayWithin(buffer: string)
    requires ParseRequestLine(buffer).Some? && |buffer| < FIELD_SIZE
    ensures LineFits(ParseRequestLine(buffer).value)
  {}

  lemma FirstWordIsMethod(buffer: string, verb: Match<string>)
    requires Word(buffer) == Some(verb)
    ensures ParseRequestLine(buffer).Some? && ParseRequestLine(buffer).value.verb == verb.value
  {}

  lemma JudgedByMethod(buffer: string, line: RequestLine, uninitialised: Target)
    requires LineFits(line)
    ensures Judged(buffer, line, uninitialised) == Tunnelled <==> IsConnect(line.verb)
    ensures !IsGet(line.verb) && !IsConnect(line.verb) ==> Judged(buffer, line, uninitialised) == Refused
    ensures Judged(buffer, line, uninitialised).Value? ==> IsGet(line.verb)
  {}

  /** Once the words fit their arrays, which they do in any short request, a method other than
      GET and CONNECT is refused whatever follows it, and CONNECT goes to its own branch: neither
      the words that may be missing nor a newline matter. */
  lemma MethodDecides(verb: string, rest: string, uninitialised: Target)
    requires Visible(verb) && (rest == "" || IsSpace(rest[0])) && |verb + rest| < BUFFER_SIZE
    ensures var line := ParseRequestLine(verb + rest);
            var sent := Forwarded(verb + rest, uninitialised);
            && line.Some? && line.value.verb == verb
            && (|verb + rest| < FIELD_SIZE ==> LineFits(line.value))
            && (sent == Tunnelled <==> LineFits(line.value) && BeginsWith(verb, "CONNECT"))
            && (LineFits(line.value) && !BeginsWith(verb, "GET") && !BeginsWith(verb, "CONNECT") ==>
                  sent == Refused)
            && (sent.Value? ==> BeginsWith(verb, "GET"))
  {
    var buffer := verb + rest;
    GetInAnyCase(verb);
    ConnectInAnyCase(verb);
    WordScans(verb, rest);
    FirstWordIsMethod(buffer, Match(verb, rest));
    if |buffer| < FIELD_SIZE {
      FieldsStayWithin(buffer);
    }
    if LineFits(ParseRequestLine(buffer).value) {
      JudgedByMethod(buffer, ParseRequestLine(buffer).value, uninitialised);
    }
  }

  /** Some methods by name, with anything behind them. */
  lemma MethodsByName(rest: string, uninitialised: Target)
    requires (rest == "" || IsSpace(rest[0])) && |rest| < 1000
    ensures Forwarded("POST" + rest, uninitialised) == Forwarded("HEAD" + rest, uninitialised) == Refused
    ensures Forwarded("CONNECT" + rest, uninitialised) == Forwarded("connect" + rest, uninitialised) == Tunnelled
    ensures BeginsWith("GET", "GET") && BeginsWith("get", "GET") && !BeginsWith("GE", "GET")
  {
    KnownMethods();
    assert Visible("POST") && Visible("HEAD") && Visible("CONNECT") && Visible("connect");
    MethodDecides("POST", rest, uninitialised);
    MethodDecides("HEAD", rest, uninitialised);
    MethodDecides("CONNECT", rest, uninitialised);
    MethodDecides("connect", rest, uninitialised);
  }

  lemma KnownMethods()
    ensures !BeginsWith("POST", "GET") && !BeginsWith("POST", "CONNECT")
    ensures !BeginsWith("HEAD", "GET") && !BeginsWith("HEAD", "CONNECT")
    ensures BeginsWith("CONNECT", "CONNECT") && BeginsWith("connect", "CONNECT")
    ensures BeginsWith("GET", "GET") && BeginsWith("get", "GET") && !BeginsWith("GE", "GET")
  {
    GetInAnyCase("POST");
    GetInAnyCase("HEAD");
    GetInAnyCase("GET");
    GetInAnyCase("get");
    ConnectInAnyCase("CONNECT");
    ConnectInAnyCase("connect");
  }

  lemma VerbAndUrlScan(verb: string, url: string)
    requires Visible(verb) && Visible(url)
    ensures ParseRequestLine(verb + " " + url) == Some(RequestLine(verb, Some(url), None))
  {
    assert verb + " " + url == verb + (" " + url);
    WordScans(verb, " " + url);
    assert " " + url + "" == " " + url;
    NextWordScans(url, "");
    TwoWords(verb + " " + url, verb, " " + url, url);
  }

  lemma TwoWords(buffer: string, verb: string, rest: string, url: string)
    requires Word(buffer) == Some(Match(verb, rest)) && Word(rest) == Some(Match(url, ""))
    ensures ParseRequestLine(buffer) == Some(RequestLine(verb, Some(url), None))
  {
    assert Word("") == None;
  }

  lemma GetIsForwarded(buffer: string, line: RequestLine, uninitialised: Target)
    requires LineFits(line) && BeginsWith(line.verb, "GET")
    ensures Judged(buffer, line, uninitialised) == ForwardedGet(buffer, line, uninitialised)
  {
    GetInAnyCase(line.verb);
  }

  lemma NoVersionToSend(buffer: string, verb: string, url: string, uninitialised: Target)
    requires LineFits(RequestLine(verb, Some(url), None))
    ensures ForwardedGet(buffer, RequestLine(verb, Some(url), None), uninitialised)
            == if ParseUrl(url, uninitialised) == Refused then Refused else Undefined
  {}

  lemma GoodUrlIsSent(
      buffer: string, line: RequestLine, target: Target, text: string, uninitialised: Target)
    requires LineFits(line) && line.url.Some? && line.version.Some?
    requires ParseUrl(line.url.value, uninitialised) == Value(target) && '\n' in buffer
    requires text == Rewritten(Remaining(buffer), target.resource, line.version.value) && |text| < BUFFER_SIZE
    ensures ForwardedGet(buffer, line, uninitialised) == Value(text)
  {}

  /** A GET request line, in any case, that ends behind its URL is refused exactly when the URL is. */
  lemma UrlDecides(verb: string, url: string, uninitialised: Target)
    requires Visible(verb) && BeginsWith(verb, "GET") && |verb| < FIELD_SIZE
    requires Visible(url) && |url| < FIELD_SIZE
    ensures Forwarded(verb + " " + url, uninitialised)
            == if ParseUrl(url, uninitialised) == Refused then Refused else Undefined
  {
    VerbAndUrlScan(verb, url);
    GetIsForwarded(verb + " " + url, RequestLine(verb, Some(url), None), uninitialised);
    NoVersionToSend(verb + " " + url, verb, url, uninitialised);
  }

  lemma RequestLineScans(verb: string, url: string, version: string, text: string)
    requires Visible(verb) && Visible(url) && Visible(version)
    ensures ParseRequestLine(verb + " " + url + " " + version + "\r\n" + text)
            == Some(RequestLine(verb, Some(url), Some(version)))
  {
    var buffer := verb + " " + url + " " + version + "\r\n" + text;
    var end := "\r\n" + text;
    var afterUrl := " " + version + end;
    var afterVerb := " " + url + afterUrl;
    assert buffer == verb + afterVerb;
    WordScans(verb, afterVerb);
    NextWordScans(url, afterUrl);
    NextWordScans(version, end);
  }

  /** What a server makes of a line in origin form: the resource, then the version. */
  lemma ServerReads(resource: string, version: string, text: string)
    requires Visible(resource) && Visible(version)
    ensures ParseRequestLine(OriginLine(resource, version) + text)
            == Some(RequestLine("GET", Some(resource), Some(version)))
  {
    assert Visible("GET");
    RequestLineScans("GET", resource, version, text);
    OriginLineSpelt(resource, version, text);
  }

  lemma OriginLineSpelt(resource: string, version: string, text: string)
    ensures OriginLine(resource, version) + text == "GET" + " " + resource + " " + version + "\r\n" + text
  {
    assert "GET" + " " == "GET ";
  }

  lemma BufferRemaining(verb: string, url: string, version: string, text: string)
    requires Visible(verb) && Visible(url) && Visible(version)
    ensures var buffer := verb + " " + url + " " + version + "\r\n" + text;
            '\n' in buffer && Remaining(buffer) == text
  {
    var line := verb + " " + url + " " + version + "\r";
    assert verb + " " + url + " " + version + "\r\n" + text == line + "\n" + text;
    RemainingBehindLine(line, text);
  }

  lemma ForwardsFrom(buffer: string, line: RequestLine, text: string, target: Target, uninitialised: Target)
    requires |buffer| < BUFFER_SIZE && '\n' in buffer && Remaining(buffer) == text
    requires ParseRequestLine(buffer) == Some(line) && BeginsWith(line.verb, "GET")
    requires line.url.Some? && line.version.Some? && |line.url.value| < FIELD_SIZE
    requires ParseUrl(line.url.value, uninitialised) == Value(target)
    requires |Rewritten(text, target.resource, line.version.value)| < BUFFER_SIZE
    ensures Forwarded(buffer, uninitialised)
            == if LineFits(line) then Value(Rewritten(text, target.resource, line.version.value)) else Undefined
  {
    if LineFits(line) {
      GetIsForwarded(buffer, line, uninitialised);
      GoodUrlIsSent(
        buffer, line, target, Rewritten(text, target.resource, line.version.value), uninitialised);
    }
  }

  lemma RewrittenIsShorter(verb: string, url: string, resource: string, version: string, text: string)
    requires |verb| >= 3 && |resource| < |url|
    ensures |Rewritten(text, resource, version)| < |verb + " " + url + " " + version + "\r\n" + text|
  {
    OnlyTheHeaderChanges(text);
  }

  /** The replacement spelled out: the text before and behind the leftmost header is kept. */
  lemma OnlyTheHeaderChanges(text: string)
    ensures Find(text, KEEP_ALIVE).Some? <==> exists k: nat :: OccursAt(text, KEEP_ALIVE, k)
    ensures forall k: nat :: LeftmostAt(text, KEEP_ALIVE, k) ==>
              WithClose(text) == text[..k] + CLOSE + text[k + |KEEP_ALIVE|..]
    ensures |WithClose(text)| <= |text|
  {
    var found := Find(text, KEEP_ALIVE);
    forall k: nat | LeftmostAt(text, KEEP_ALIVE, k) ensures found == Some(k) {
      assert found.Some?;
      assert !(found.value < k) && !(k < found.value);
    }
  }

  /** For a well-formed request line with the method GET, in any case, whose URL parses: if the
      text behind it has a keep-alive header and method and version fit their arrays, the proxy
      forwards the origin form of the line and the text with exactly its leftmost such header
      replaced, and only then. A text without the header is forwarded alone, and the request line
      is lost. */
  lemma ForwardsOriginForm(
      verb: string, url: string, version: string, text: string, target: Target, uninitialised: Target)
    requires Visible(verb) && BeginsWith(verb, "GET") && Visible(url) && Visible(version)
    requires |verb + " " + url + " " + version + "\r\n" + text| < 10000
    requires |url| < FIELD_SIZE && ParseUrl(url, uninitialised) == Value(target)
    ensures var sent := Forwarded(verb + " " + url + " " + version + "\r\n" + text, uninitialised);
            var line := "GET " + target.resource + " " + version + "\r\n";
            var fits := |verb| < 1024 && |version| < 1024;
            && (sent == Value(line + WithClose(text))
                <==> fits && exists k: nat :: OccursAt(text, "Connection: keep-alive\r\n", k))
            && (fits ==>
                  forall k: nat :: LeftmostAt(text, "Connection: keep-alive\r\n", k) ==>
                    sent == Value(line + (text[..k] + "Connection: close\r\n" + text[k + 24..])))
            && (fits && (forall k: nat :: !OccursAt(text, "Connection: keep-alive\r\n", k)) ==>
                  sent == Value(text))
            && (!fits ==> sent == Undefined)
  {
    var buffer := verb + " " + url + " " + version + "\r\n" + text;
    RequestLineScans(verb, url, version, text);
    BufferRemaining(verb, url, version, text);
    TargetFitsArrays(url, uninitialised);
    RewrittenIsShorter(verb, url, target.resource, version, text);
    ForwardsFrom(buffer, RequestLine(verb, Some(url), Some(version)), text, target, uninitialised);
    OnlyTheHeaderChanges(text);
    if Find(text, KEEP_ALIVE).None? {
      assert |OriginLine(target.resource, version) + WithClose(text)| > |text|;
    }
  }

  /** The whole way of a request for http://host:port/path that fits the arrays, with a port
      that fits an int: with a keep-alive header it reaches the server in origin form, only the
      header changed; the server reads the path and the version off its first line; and it is
      strictly shorter than it came, so it fits the array it is built in. */
  lemma PortRequestForwarded(
      verb: string, host: string, port: nat, path: string, version: string, text: string, uninitialised: Target)
    requires Visible(verb) && BeginsWith(verb, "GET") && |verb| < FIELD_SIZE
    requires IsHost(host) && IsPath(path) && path != "" && port <= INT_MAX
    requires Visible(version) && |version| < FIELD_SIZE
    requires |"http://" + host + (":" + Numeral(port) + path)| < FIELD_SIZE
    requires |verb + " " + ("http://" + host + (":" + Numeral(port) + path)) + " " + version + "\r\n" + text|
             < 10000
    requires exists k: nat :: OccursAt(text, KEEP_ALIVE, k)
    ensures var url := "http://" + host + (":" + Numeral(port) + path);
            var buffer := verb + " " + url + " " + version + "\r\n" + text;
            var sent := Forwarded(buffer, uninitialised);
            && sent == Value("GET " + path + " " + version + "\r\n" + WithClose(text))
            && ParseRequestLine(sent.value) == Some(RequestLine("GET", Some(path), Some(version)))
            && |sent.value| < |buffer| < 10000
  {
    var url := "http://" + host + (":" + Numeral(port) + path);
    PortUrlRoundTrip(host, port, path, uninitialised);
    PortIsVisible(port);
    assert Visible(":" + Numeral(port) + path);
    VisibleUrl(host, ":" + Numeral(port) + path, url);
    ForwardsOriginForm(verb, url, version, text, Target(host, port, path), uninitialised);
    ServerReads(path, version, WithClose(text));
    OnlyTheHeaderChanges(text);
    RewrittenIsShorter(verb, url, path, version, text);
  }

  lemma PlainRequestForwarded(
      verb: string, host: string, path: string, version: string, text: string, uninitialised: Target)
    requires Visible(verb) && BeginsWith(verb, "GET") && |verb| < FIELD_SIZE
    requires IsHost(host) && IsPath(path) && path != "" && Visible(version) && |version| < FIELD_SIZE
    requires |"http://" + host + path| < FIELD_SIZE
    requires |verb + " " + ("http://" + host + path) + " " + version + "\r\n" + text| < 10000
    requires exists k: nat :: OccursAt(text, KEEP_ALIVE, k)
    ensures var url := "http://" + host + path;
            var buffer := verb + " " + url + " " + version + "\r\n" + text;
            var sent := Forwarded(buffer, uninitialised);
            && sent == Value("GET " + path + " " + version + "\r\n" + WithClose(text))
            && ParseRequestLine(sent.value) == Some(RequestLine("GET", Some(path), Some(version)))
            && |sent.value| < |buffer| < 10000
  {
    var url := "http://" + host + path;
    PlainUrlRoundTrip(host, path, uninitialised);
    VisibleUrl(host, path, url);
    ForwardsOriginForm(verb, url, version, text, Target(host, DEFAULT_PORT, path), uninitialised);
    ServerReads(path, version, WithClose(text));
    OnlyTheHeaderChanges(text);
    RewrittenIsShorter(verb, url, path, version, text);
  }

  lemma VisibleUrl(host: string, tail: string, url: string)
    requires IsHost(host) && Visible(tail) && url == "http://" + host + tail
    ensures Visible(url)
  {
    assert Visible("http://");
  }
}
