/**
 The keydb fetch (`fetch`, `get_hop` and the URL half of `resolve_and_guard` in
 src/keydb_fetch.rs): at most `MAX_REDIRECTS` redirects, each hop guarded and pinned anew.

 The network is a parameter: `Network` answers every lookup and every request, in any way,
 and may answer the same URL differently on each hop.
 */
module KeydbFetch {
  import opened Basics
  import opened Text
  import opened Redirects

  const MAX_REDIRECTS: nat := 5

  /** Resolved socket addresses, as numbers. */
  type Pins = seq<nat>

  /** What one GET meets: no answer, or a status, a `Location`, and how its body ends. */
  datatype Answer = NoAnswer | Response(status: nat, location: Option<string>, body: BodyRead)

  datatype BodyRead = Whole(bytes: seq<nat>) | TooLarge | Broken

  /** `lookup(hop, host, port)`: the host's addresses, if it resolves; `blocked(address)`: no
      connection may go there; `get(hop, url, pins)`: what the server sends. */
  datatype Network = Network(lookup: (nat, string, nat) -> Option<Pins>, blocked: nat -> bool,
                             get: (nat, string, Pins) -> Answer)

  /** What was not allowed: a scheme or an address. */
  datatype Detail = Scheme(name: string) | Address(address: nat)

  datatype Error = UnsupportedScheme(detail: Detail) | Connect | Http(status: nat) | Invalid

  datatype Hop = Body(bytes: seq<nat>) | Redirect(status: nat, to: string)

  /** What the fetch did, in order. */
  datatype Event =
    | Guarded(url: string, pins: Pins)
    | Requested(url: string, pins: Pins, answer: Answer)

  predicate IsRedirection(status: nat) { 300 <= status < 400 }

  predicate IsSuccess(status: nat) { 200 <= status < 300 }

  /** `authority_of`: without any userinfo. */
  function HostAndPort(rest: string): string { Authority(rest)[AfterLast(Authority(rest), '@')..] }

  function Digits(s: string): Option<nat> {
    if s == "" then Some(0)
    else if !IsDigit(s[|s| - 1]) then None
    else
      match Digits(s[..|s| - 1])
      case None => None
      case Some(high) => Some(10 * high + (s[|s| - 1] as int - '0' as int))
  }

  /** `parse::<u16>()`. */
  function ParsePort(s: string): Option<nat> {
    var digits := if s != "" && s[0] == '+' then s[1..] else s;
    if digits == "" then None
    else
      match Digits(digits)
      case None => None
      case Some(port) => if port < 0x1_0000 then Some(port) else None
  }

  /** The host and port that `host[:port]` names. */
  function HostIn(authority: string, defaultPort: nat): Option<(string, nat)> {
    if authority == "" then None
    else if authority[0] == '[' then
      match SplitOnce(authority[1..], "]")
      case None => None
      case Some((host, after)) =>
        if after != "" && after[0] == ':' then
          (match ParsePort(after[1..]) case None => None case Some(port) => Some((host, port)))
        else Some((host, defaultPort))
    else
      var i := AfterLast(authority, ':');
      if i > 0 && ParsePort(authority[i..]).Some? then Some((authority[..i - 1], ParsePort(authority[i..]).value))
      else Some((authority, defaultPort))
  }

  /** The host and port a URL names after its scheme, if it names a host. */
  function HostOf(rest: string, defaultPort: nat): Option<(string, nat)> {
    var found := HostIn(HostAndPort(rest), defaultPort);
    if found.Some? && found.value.0 != "" then found else None
  }

  /** Index of the first address that is blocked, or the number of addresses. */
  function FirstBlocked(net: Network, pins: Pins): (k: nat)
    ensures k <= |pins|
    ensures forall j :: 0 <= j < k ==> !net.blocked(pins[j])
    ensures k < |pins| ==> net.blocked(pins[k])
  {
    if pins == [] || net.blocked(pins[0]) then 0 else 1 + FirstBlocked(net, pins[1..])
  }

  /** `resolve_and_guard`: an http or https URL with a host, whose lookup finds addresses none
      of which is blocked. */
  function Guard(net: Network, hop: nat, url: string): Result<Pins, Error> {
    match SplitHttpScheme(url)
    case None => (match SplitOnce(url, "://")
                  case None => Err(Connect)
                  case Some((scheme, _)) => Err(if scheme != "" then UnsupportedScheme(Scheme(scheme)) else Connect))
    case Some((scheme, rest)) =>
      match HostOf(rest, if scheme == "https" then 443 else 80)
      case None => Err(Connect)
      case Some((host, port)) =>
        match net.lookup(hop, host, port)
        case None => Err(Connect)
        case Some(pins) =>
          if pins == [] then Err(Connect)
          else
            var k := FirstBlocked(net, pins);
            if k < |pins| then Err(UnsupportedScheme(Address(pins[k]))) else Ok(pins)
  }

  /** `get_hop`. */
  function GetHop(url: string, answer: Answer): Result<Hop, Error> {
    match answer
    case NoAnswer => Err(Connect)
    case Response(status, location, body) =>
      var to := if location.Some? then RedirectTarget(url, location.value) else None;
      if IsRedirection(status) && to.Some? then Ok(Redirect(status, to.value))
      else if !IsSuccess(status) then Err(Http(status))
      else
        match body
        case Whole(bytes) => Ok(Body(bytes))
        case TooLarge => Err(Invalid)
        case Broken => Err(Connect)
  }

  /** The URLs requested, in order. */
  function Requests(trace: seq<Event>): seq<string> {
    if trace == [] then []
    else
      var most, e := Requests(trace[..|trace| - 1]), trace[|trace| - 1];
      if e.Requested? then most + [e.url] else most
  }

  /** Every request follows the guard of that same URL, through the addresses it pinned. */
  ghost predicate GuardedEach(trace: seq<Event>) {
    forall k :: 0 <= k < |trace| && trace[k].Requested? ==>
      0 < k && trace[k - 1] == Guarded(trace[k].url, trace[k].pins)
  }

  /** Every URL is http or https, and after an https one all are https. */
  ghost predicate SchemesKept(urls: seq<string>) {
    && (forall i :: 0 <= i < |urls| ==> SplitHttpScheme(urls[i]).Some?)
    && (forall i, j :: 0 <= i <= j < |urls| && IsHttps(urls[i]) ==> IsHttps(urls[j]))
  }

  /** Where an answer points: a status from 300 to 399 with a `Location` that leads somewhere. */
  function PointsTo(url: string, answer: Answer): Option<string> {
    if answer.Response? && 300 <= answer.status <= 399 && answer.location.Some? then
      RedirectTarget(url, answer.location.value)
    else None
  }

  /** What any other answer brings: its body when it is a success with a whole one; that the body
      is too large; the status of anything but a success; and that the connection failed, when
      there was no answer or the body broke off. */
  ghost predicate Brings(answer: Answer, result: Result<seq<nat>, Error>) {
    var success := answer.Response? && 200 <= answer.status <= 299;
    && (result.Ok? <==> success && answer.body.Whole?)
    && (result.Ok? ==> result.value == answer.body.bytes)
    && (result == Err(Invalid) <==> success && answer.body.TooLarge?)
    && (result == Err(Connect) <==> answer.NoAnswer? || (success && answer.body.Broken?))
    && (answer.Response? && !success ==> result == Err(Http(answer.status)))
  }

  lemma HopExactly(url: string, answer: Answer)
    ensures var hop, to := GetHop(url, answer), PointsTo(url, answer);
            if to.Some? then hop == Ok(Redirect(answer.status, to.value))
            else
              && (hop.Ok? ==> hop.value.Body? && Brings(answer, Ok(hop.value.bytes)))
              && (hop.Err? ==> Brings(answer, Err(hop.error)))
  {
    hide RedirectTarget;
  }

  /** Each request after the first goes where the answer before it pointed. */
  ghost predicate Follows(trace: seq<Event>) {
    forall k :: 2 <= k < |trace| && trace[k].Requested? ==>
      trace[k - 2].Requested? && PointsTo(trace[k - 2].url, trace[k - 2].answer) == Some(trace[k].url)
  }

  /** The network really said what event `k` says it said, on hop `k / 2`. */
  predicate SaidSo(net: Network, k: nat, e: Event) {
    match e
    case Guarded(url, pins) => k % 2 == 0 && Guard(net, k / 2, url) == Ok(pins)
    case Requested(url, pins, answer) => k % 2 == 1 && net.get(k / 2, url, pins) == answer
  }

  ghost predicate Genuine(net: Network, trace: seq<Event>) {
    forall k :: 0 <= k < |trace| ==> SaidSo(net, k, trace[k])
  }

  /** A request whose answer is a redirect that may be followed. */
  predicate Redirected(e: Event) {
    e.Requested? && PointsTo(e.url, e.answer).Some? && !IsDowngrade(e.url, PointsTo(e.url, e.answer).value)
  }

  lemma GuardedUrlIsHttp(net: Network, hop: nat, url: string)
    ensures Guard(net, hop, url).Ok? ==>
              && SplitHttpScheme(url).Some?
              && var (scheme, rest) := SplitHttpScheme(url).value;
                 var host := HostOf(rest, if scheme == "https" then 443 else 80);
                 && host.Some? && host.value.0 != ""
                 && net.lookup(hop, host.value.0, host.value.1) == Some(Guard(net, hop, url).value)
                 && Guard(net, hop, url).value != []
                 && forall address :: address in Guard(net, hop, url).value ==> !net.blocked(address)
  {
  }

  /** A host one of whose addresses is blocked ends the fetch as not allowed, not as a failed
      connection. */
  lemma BlockedIsNotAllowed(net: Network, hop: nat, url: string)
    requires SplitHttpScheme(url).Some?
    ensures var (scheme, rest) := SplitHttpScheme(url).value;
            match HostOf(rest, if scheme == "https" then 443 else 80)
            case None => Guard(net, hop, url) == Err(Connect)
            case Some((host, port)) =>
              match net.lookup(hop, host, port)
              case None => Guard(net, hop, url) == Err(Connect)
              case Some(pins) =>
                && ((exists address :: address in pins && net.blocked(address)) <==>
                    Guard(net, hop, url).Err? && Guard(net, hop, url).error.UnsupportedScheme?)
                && (pins == [] ==> Guard(net, hop, url) == Err(Connect))
                && (forall k :: 0 <= k < |pins| && net.blocked(pins[k]) && (forall j :: 0 <= j < k ==> !net.blocked(pins[j])) ==>
                      Guard(net, hop, url) == Err(UnsupportedScheme(Address(pins[k]))))
                && (pins != [] && (forall k :: 0 <= k < |pins| ==> !net.blocked(pins[k])) ==>
                      Guard(net, hop, url) == Ok(pins))
  {
    hide HostOf;
    hide SplitHttpScheme;
    hide SplitOnce;
  }

  /** Any other URL is refused by its scheme, the text before its first `://`, and one that has
      none is no reachable host. */
  lemma OtherSchemesAreRefused(net: Network, hop: nat, url: string, n: nat)
    requires Stands(url, "://", n) && forall k: nat :: k < n ==> !Stands(url, "://", k)
    requires Lower(url[..n]) != "http" && Lower(url[..n]) != "https"
    ensures Guard(net, hop, url) == Err(if n > 0 then UnsupportedScheme(Scheme(url[..n])) else Connect)
  {
    HttpUrlsExactly(url, n);
    SplitOnceIsFirst(url, "://");
    var (a, b) := SplitOnce(url, "://").value;
    AroundSeparator(url, a, "://", b);
    hide SplitOnce;
    hide SplitHttpScheme;
    hide HostOf;
    hide FirstBlocked;
    hide Stands;
  }

  lemma NoSchemeIsNoHost(net: Network, hop: nat, url: string)
    requires forall k: nat :: !Stands(url, "://", k)
    ensures Guard(net, hop, url) == Err(Connect)
  {
    NoSchemeIsNoHttpUrl(url);
    hide SplitOnce;
    hide SplitHttpScheme;
    hide HostOf;
    hide FirstBlocked;
    hide Stands;
  }

  // ---- The host a URL names -------------------------------------------------------------------

  /** Text that holds none of these characters. */
  predicate Free(s: string, stops: set<char>) { forall k :: 0 <= k < |s| ==> s[k] !in stops }

  /** What may follow the authority: nothing, or its path, query or fragment. */
  predicate Tail(s: string) { s == "" || s[0] in Delimiters }

  function WithUser(user: Option<string>, hostPort: string): string {
    (if user.Some? then user.value + "@" else "") + hostPort
  }

  function WithPort(host: string, port: Option<nat>): string {
    host + if port.Some? then ":" + Decimal(port.value) else ""
  }

  lemma AuthorityEnds(authority: string, tail: string)
    requires Free(authority, Delimiters) && Tail(tail)
    ensures Authority(authority + tail) == authority
  {
    if tail == "" {
      assert authority + tail == authority;
      FindAnyNone(authority, Delimiters);
    } else {
      assert authority + tail == authority + [tail[0]] + tail[1..];
      FindAnyIn(authority, tail[0], tail[1..], Delimiters);
    }
  }

  lemma AfterLastIs(a: string, c: char, b: string)
    requires c !in b
    ensures AfterLast(a + [c] + b, c) == |a| + 1 && (a + [c] + b)[|a| + 1..] == b
  {
    hide AfterLast;
    LastOne(a, c, b);
  }

  lemma LastOne(a: string, c: char, b: string)
    requires c !in b
    ensures var s := a + [c] + b;
            s[|a|] == c && (forall k :: |a| < k < |s| ==> s[k] != c) && s[|a| + 1..] == b
  {
    var s := a + [c] + b;
    forall k | |a| < k < |s| ensures s[k] != c {
      assert s[k] == b[k - |a| - 1];
    }
  }

  lemma AfterNone(s: string, c: char)
    requires c !in s
    ensures AfterLast(s, c) == 0 && s[0..] == s
  {
    assert forall k :: 0 <= k < |s| ==> s[k] in s;
  }

  lemma UserDropped(user: Option<string>, hostPort: string, tail: string)
    requires user.Some? ==> Free(user.value, Delimiters)
    requires Free(hostPort, Delimiters + {'@'}) && Tail(tail)
    ensures HostAndPort(WithUser(user, hostPort) + tail) == hostPort
  {
    var authority := WithUser(user, hostPort);
    AuthorityEnds(authority, tail);
    if user.Some? {
      assert authority == user.value + ['@'] + hostPort;
      AfterLastIs(user.value, '@', hostPort);
    } else {
      assert authority == hostPort;
      AfterNone(hostPort, '@');
    }
  }

  lemma {:induction false} DigitsAreTheirValue(d: string)
    requires forall k :: 0 <= k < |d| ==> IsDigit(d[k])
    ensures Value(d) >= 0 && Digits(d) == Some(Value(d))
  {
    if d != "" { DigitsAreTheirValue(d[..|d| - 1]); }
  }

  lemma PortReads(port: nat)
    requires port < 0x1_0000
    ensures ParsePort(Decimal(port)) == Some(port)
  {
    DigitsAreTheirValue(Decimal(port));
    DecimalReadsBack(port);
    var d := Decimal(port);
    assert IsDigit(d[0]);
    hide Decimal;
  }

  lemma PortIsFree(host: string, port: Option<nat>, stops: set<char>)
    requires Free(host, stops) && forall c :: IsDigit(c) || c == ':' ==> c !in stops
    ensures Free(WithPort(host, port), stops)
  {
    hide Decimal;
  }

  lemma NamedHostIn(host: string, port: Option<nat>, defaultPort: nat)
    requires host != "" && host[0] != '[' && ':' !in host && (port.Some? ==> port.value < 0x1_0000)
    ensures HostIn(WithPort(host, port), defaultPort) == Some((host, if port.Some? then port.value else defaultPort))
  {
    if port.Some? {
      PortReads(port.value);
      ColonPort(host, Decimal(port.value));
    } else {
      assert host + "" == host;
      AfterNone(host, ':');
    }
    hide ParsePort;
    hide AfterLast;
    hide SplitOnce;
    hide Decimal;
  }

  lemma ColonPort(host: string, d: string)
    requires host != "" && forall k :: 0 <= k < |d| ==> IsDigit(d[k])
    ensures var s, i := host + (":" + d), |host| + 1;
            AfterLast(s, ':') == i && s[i..] == d && s[..i - 1] == host && s[0] == host[0]
  {
    var s := host + (":" + d);
    assert s == host + [':'] + d;
    AfterLastIs(host, ':', d);
  }

  lemma BracketedHostIn(host: string, port: Option<nat>, defaultPort: nat)
    requires ']' !in host && (port.Some? ==> port.value < 0x1_0000)
    ensures HostIn(WithPort("[" + host + "]", port), defaultPort)
            == Some((host, if port.Some? then port.value else defaultPort))
  {
    var after := if port.Some? then ":" + Decimal(port.value) else "";
    BehindBracket(host, after);
    SplitOnceHere(host, "]", after);
    if port.Some? {
      PortReads(port.value);
      assert after[1..] == Decimal(port.value);
    }
    hide ParsePort;
    hide Decimal;
    hide SplitOnce;
    hide AfterLast;
  }

  lemma BehindBracket(host: string, after: string)
    ensures var s := "[" + host + "]" + after; s[0] == '[' && s[1..] == host + "]" + after
  {
  }

  /** A host name, with or without a user before it, and its own port or the scheme's. */
  lemma NamedHostReadsBack(user: Option<string>, host: string, port: Option<nat>, tail: string, defaultPort: nat)
    requires user.Some? ==> Free(user.value, Delimiters)
    requires host != "" && host[0] != '[' && Free(host, Delimiters + {'@', ':'})
    requires (port.Some? ==> port.value < 0x1_0000) && Tail(tail)
    ensures HostOf(WithUser(user, WithPort(host, port)) + tail, defaultPort)
            == Some((host, if port.Some? then port.value else defaultPort))
  {
    PortIsFree(host, port, Delimiters + {'@'});
    UserDropped(user, WithPort(host, port), tail);
    NamedHostIn(host, port, defaultPort);
    hide HostAndPort;
    hide HostIn;
    hide WithUser;
    hide WithPort;
    hide Free;
  }

  /** An address in brackets, which may hold colons of its own. */
  lemma BracketedHostReadsBack(user: Option<string>, host: string, port: Option<nat>, tail: string, defaultPort: nat)
    requires user.Some? ==> Free(user.value, Delimiters)
    requires host != "" && Free(host, Delimiters + {'@', ']'})
    requires (port.Some? ==> port.value < 0x1_0000) && Tail(tail)
    ensures HostOf(WithUser(user, WithPort("[" + host + "]", port)) + tail, defaultPort)
            == Some((host, if port.Some? then port.value else defaultPort))
  {
    var bracketed := "[" + host + "]";
    BracketsAreFree(host);
    PortIsFree(bracketed, port, Delimiters + {'@'});
    UserDropped(user, WithPort(bracketed, port), tail);
    BracketedHostIn(host, port, defaultPort);
    hide HostAndPort;
    hide HostIn;
    hide WithUser;
    hide WithPort;
    hide Free;
  }

  lemma BracketsAreFree(host: string)
    requires Free(host, Delimiters + {'@', ']'})
    ensures Free("[" + host + "]", Delimiters + {'@'})
  {
  }

  lemma RequestsSnoc(trace: seq<Event>, guard: Event, request: Event)
    requires guard.Guarded? && request.Requested?
    ensures Requests(trace + [guard]) == Requests(trace)
    ensures Requests(trace + [guard] + [request]) == Requests(trace) + [request.url]
  {
    assert (trace + [guard])[..|trace|] == trace;
    assert (trace + [guard] + [request])[..|trace| + 1] == trace + [guard];
  }

  lemma SchemesKeptSnoc(urls: seq<string>, url: string)
    requires SchemesKept(urls) && SplitHttpScheme(url).Some?
    requires urls != [] ==> !IsDowngrade(urls[|urls| - 1], url)
    ensures SchemesKept(urls + [url])
  {
    var all := urls + [url];
    forall i | 0 <= i < |all| && IsHttps(all[i]) ensures IsHttps(all[|urls|]) {
      if i < |urls| { assert IsHttps(urls[|urls| - 1]); }
    }
  }

  /** What a trace keeps, hop after hop. */
  ghost predicate Sane(start: string, net: Network, trace: seq<Event>) {
    && |trace| == 2 * |Requests(trace)|
    && (trace != [] ==> Requests(trace)[0] == start && trace[|trace| - 1].Requested?
                        && Requests(trace)[|Requests(trace)| - 1] == trace[|trace| - 1].url)
    && GuardedEach(trace) && Genuine(net, trace) && Follows(trace) && SchemesKept(Requests(trace))
  }

  lemma NothingIsSane(start: string, net: Network)
    ensures Sane(start, net, [])
  {
  }

  lemma SaneExtends(start: string, net: Network, trace: seq<Event>, url: string, pins: Pins, answer: Answer)
    requires Sane(start, net, trace)
    requires Guard(net, |Requests(trace)|, url) == Ok(pins) && answer == net.get(|Requests(trace)|, url, pins)
    requires if trace == [] then url == start
             else var last := trace[|trace| - 1];
                  Redirected(last) && PointsTo(last.url, last.answer) == Some(url)
    ensures Sane(start, net, trace + [Guarded(url, pins)] + [Requested(url, pins, answer)])
    ensures Requests(trace + [Guarded(url, pins)] + [Requested(url, pins, answer)]) == Requests(trace) + [url]
  {
    hide PointsTo;
    hide Guard;
    hide IsDowngrade;
    hide SplitHttpScheme;
    hide GuardedEach;
    hide Genuine;
    hide Follows;
    hide SchemesKept;
    RequestsSnoc(trace, Guarded(url, pins), Requested(url, pins, answer));
    GuardedUrlIsHttp(net, |Requests(trace)|, url);
    SchemesKeptSnoc(Requests(trace), url);
    var hops := |Requests(trace)|;
    assert |trace| == 2 * hops;
    EventsExtend(net, trace, hops, url, pins, answer);
    FollowsExtends(trace, url, pins, answer);
  }

  lemma EventsExtend(net: Network, trace: seq<Event>, hops: nat, url: string, pins: Pins, answer: Answer)
    requires |trace| == 2 * hops && GuardedEach(trace) && Genuine(net, trace)
    requires Guard(net, hops, url) == Ok(pins) && answer == net.get(hops, url, pins)
    ensures var all := trace + [Guarded(url, pins)] + [Requested(url, pins, answer)];
            GuardedEach(all) && Genuine(net, all)
  {
    hide Guard;
    var n := |trace|;
    var all := trace + [Guarded(url, pins)] + [Requested(url, pins, answer)];
    assert forall k :: 0 <= k < n ==> all[k] == trace[k];
    assert all[n] == Guarded(url, pins) && all[n + 1] == Requested(url, pins, answer);
    assert SaidSo(net, n, all[n]) && SaidSo(net, n + 1, all[n + 1]);
  }

  lemma FollowsExtends(trace: seq<Event>, url: string, pins: Pins, answer: Answer)
    requires Follows(trace)
    requires trace != [] ==> Redirected(trace[|trace| - 1])
                             && PointsTo(trace[|trace| - 1].url, trace[|trace| - 1].answer) == Some(url)
    ensures Follows(trace + [Guarded(url, pins)] + [Requested(url, pins, answer)])
  {
    hide PointsTo;
    var n := |trace|;
    var all := trace + [Guarded(url, pins)] + [Requested(url, pins, answer)];
    assert forall k :: 0 <= k < n ==> all[k] == trace[k];
    assert all[n] == Guarded(url, pins) && all[n + 1] == Requested(url, pins, answer);
  }

  lemma PointsWithStatus(url: string, answer: Answer)
    ensures PointsTo(url, answer).Some? ==> answer.Response?
  {
    hide RedirectTarget;
  }

  /** Against any network: at most `MAX_REDIRECTS + 1` requests, each guarded and pinned in
      its own turn and each but the first where the last answer pointed; never from https to
      http; a body only from a success status. Together the clauses fix the whole trace and
      the result: the fetch goes on exactly as long as it is redirected and may go on. */
  method Fetch(start: string, net: Network) returns (result: Result<seq<nat>, Error>, trace: seq<Event>)
    ensures |Requests(trace)| <= MAX_REDIRECTS + 1
    ensures Requests(trace) != [] ==> Requests(trace)[0] == start
    ensures GuardedEach(trace) && Genuine(net, trace) && Follows(trace)
    ensures SchemesKept(Requests(trace))
    ensures trace == [] ==> Guard(net, 0, start).Err? && result == Err(Guard(net, 0, start).error)
    ensures trace != [] && Redirected(trace[|trace| - 1]) ==>
              if |Requests(trace)| == MAX_REDIRECTS + 1 then result == Err(Http(trace[|trace| - 1].answer.status))
              else
                var to := PointsTo(trace[|trace| - 1].url, trace[|trace| - 1].answer).value;
                Guard(net, |Requests(trace)|, to).Err? && result == Err(Guard(net, |Requests(trace)|, to).error)
    ensures trace != [] ==> |trace| == 2 * |Requests(trace)| && trace[|trace| - 1].Requested?
    ensures result.Ok? ==> trace != [] && Brings(trace[|trace| - 1].answer, result)
    ensures trace != [] && !Redirected(trace[|trace| - 1]) ==>
              if PointsTo(trace[|trace| - 1].url, trace[|trace| - 1].answer).Some? then
                result == Err(UnsupportedScheme(Scheme("http")))
              else
                Brings(trace[|trace| - 1].answer, result)
  {
    hide GetHop;
    hide PointsTo;
    hide Brings;
    hide Guard;
    hide GuardedEach;
    hide Genuine;
    hide Follows;
    hide SchemesKept;
    hide IsDowngrade;
    hide SplitHttpScheme;
    var url, lastStatus, hop := start, 0, 0;
    trace := [];
    NothingIsSane(start, net);
    while hop <= MAX_REDIRECTS
      invariant hop <= MAX_REDIRECTS + 1 && |Requests(trace)| == hop
      invariant Sane(start, net, trace)
      invariant hop == 0 ==> url == start
      invariant hop > 0 ==>
                  var last := trace[|trace| - 1];
                  && Redirected(last) && last.answer.Response? && last.answer.status == lastStatus
                  && PointsTo(last.url, last.answer) == Some(url)
      decreases MAX_REDIRECTS + 1 - hop
    {
      var guard := Guard(net, hop, url);
      if guard.Err? { return Err(guard.error), trace; }
      var pins := guard.value;
      var answer := net.get(hop, url, pins);
      SaneExtends(start, net, trace, url, pins, answer);
      trace := trace + [Guarded(url, pins)] + [Requested(url, pins, answer)];
      var got := GetHop(url, answer);
      HopExactly(url, answer);
      PointsWithStatus(url, answer);
      if got.Err? { return Err(got.error), trace; }
      if got.value.Body? { return Ok(got.value.bytes), trace; }
      if IsDowngrade(url, got.value.to) { return Err(UnsupportedScheme(Scheme("http"))), trace; }
      lastStatus := got.value.status;
      url := got.value.to;
      hop := hop + 1;
    }
    return Err(Http(lastStatus)), trace;
  }

  /** Whatever the server sends, a hop that is followed stays on http or https. */
  lemma EveryHopIsHttp(url: string, answer: Answer)
    ensures PointsTo(url, answer).Some? ==> SplitHttpScheme(PointsTo(url, answer).value).Some?
  {
    if PointsTo(url, answer).Some? { TargetsStayOnHttp(url, answer.location.value); }
  }
}
