/** Advertised endpoints and the handshake metadata that carries them (pkg/discover/endpoint.go:
    141-285, pkg/server/server.go:1107-1153, pkg/client/client.go:1561-1586). */
module Endpoints {
  import opened Bytes
  import opened Text
  import opened Handshake

  const MAX_HOST: nat := 253
  const MAX_ADVERTISED: nat := 64

  /** net.ParseIP as predicates: what parses, and what of it is IPv4. */
  datatype IPs = IPs(parses: string -> bool, isV4: string -> bool)

  /** Literals are hex digits, dots and colons; one that is not IPv4 has a colon. */
  ghost predicate Laws(ips: IPs)
  {
    forall h: string | ips.parses(h) ::
      (forall c | c in h :: IsDigit(c) || 'a' <= c <= 'f' || 'A' <= c <= 'F' || c == '.' || c == ':')
      && (!ips.isV4(h) ==> ':' in h)
  }

  datatype EndpointError = BadDefaultPort | Empty | ControlSpace | NoHost | BadHost | NotIPv6 | BadPort | BadBrackets

  // ----- One endpoint ---------------------------------------------------------------------

  predicate IsZoneLiteral(ips: IPs, host: string)
  {
    var i := First(host, '%');
    i + 1 < |host| && ips.parses(host[..i]) && !ips.isV4(host[..i])
  }

  predicate LooksLikeIPv4(host: string)
  {
    '.' in host && forall c | c in host :: IsDigit(c) || c == '.'
  }

  predicate IsForbidden(c: char)
  {
    c in "[]/@\\?#|,\r\n\t " || c as int == 0x0B || c as int == 0x0C
  }

  predicate ValidHost(ips: IPs, host: string)
  {
    && host != [] && Len(host) <= MAX_HOST
    && (forall c | c in host :: !IsForbidden(c))
    && ('%' in host ==> IsZoneLiteral(ips, host))
    && (LooksLikeIPv4(host) ==> ips.parses(host))
    && (':' in host ==> ips.parses(host) || IsZoneLiteral(ips, host))
  }

  function ParsePort(text: string): Option<nat>
  {
    if text == [] then None
    else match Atoi(text)
      case None => None
      case Some(port) => if port < 1 || port > 65535 then None else Some(port)
  }

  function Normalize(ips: IPs, raw: string, defaultPort: int): Result<string, EndpointError>
  {
    if defaultPort < 1 || defaultPort > 65535 then Err(BadDefaultPort)
    else
      var s := TrimSpace(raw);
      if s == [] then Err(Empty)
      else if '\r' in s || '\n' in s || '\t' in s then Err(ControlSpace)
      else
        match SplitHostPort(s)
        case Some((host, text)) =>
          if host == [] then Err(NoHost)
          else if !ValidHost(ips, host) then Err(BadHost)
          else if s[0] == '[' && !ips.parses(host) && !IsZoneLiteral(ips, host) then Err(NotIPv6)
          else (match ParsePort(text)
                case None => Err(BadPort)
                case Some(port) => Ok(JoinHostPort(host, Itoa(port))))
        case None => WithDefaultPort(ips, s, defaultPort)
  }

  /** The forms without a port. */
  function WithDefaultPort(ips: IPs, s: string, defaultPort: nat): Result<string, EndpointError>
    requires s != []
  {
    var opens, closes := s[0] == '[', s[|s| - 1] == ']';
    if (opens || closes) && (!opens || !closes || Len(s) < 3) then Err(BadBrackets)
    else
      var host := if opens && |s| >= 2 then s[1..|s| - 1] else s;
      if host == [] then Err(NoHost)
      else if !ValidHost(ips, host) then Err(BadHost)
      else if (':' in host || opens) && !ips.parses(host) && !IsZoneLiteral(ips, host) then Err(NotIPv6)
      else Ok(JoinHostPort(host, Itoa(defaultPort)))
  }

  /** The canonical spelling of a valid host and port. */
  predicate Canonical(ips: IPs, s: string, host: string, port: nat)
  {
    && ValidHost(ips, host) && 1 <= port <= 65535 && s == JoinHostPort(host, Itoa(port))
    && (':' in host || !IsSpace(host[0]))
  }

  lemma LiteralStart(ips: IPs, host: string)
    requires Laws(ips) && host != [] && (ips.parses(host) || IsZoneLiteral(ips, host))
    ensures ':' in host || !IsSpace(host[0])
  {
    if ips.parses(host) {
      assert host[0] in host;
    } else {
      var i := First(host, '%');
      assert ':' in host[..i];
    }
  }

  /** What Normalize gives is canonical. */
  lemma NormalizedIsCanonical(ips: IPs, raw: string, defaultPort: int)
    requires Laws(ips) && Normalize(ips, raw, defaultPort).Ok?
    ensures exists host, port :: Canonical(ips, Normalize(ips, raw, defaultPort).value, host, port)
  {
    hide ValidHost, Laws, IsZoneLiteral, Itoa, Atoi, TrimSpace, JoinHostPort, IsSpace;
    var s := TrimSpace(raw);
    Trimmed(raw);
    var split := SplitHostPort(s);
    if split.Some? {
      var (host, text) := split.value;
      if s[0] == '[' {
        LiteralStart(ips, host);
      }
      assert Canonical(ips, Normalize(ips, raw, defaultPort).value, host, ParsePort(text).value);
    } else {
      var host := if s[0] == '[' && |s| >= 2 then s[1..|s| - 1] else s;
      if s[0] == '[' {
        LiteralStart(ips, host);
      }
      assert Canonical(ips, Normalize(ips, raw, defaultPort).value, host, defaultPort);
    }
  }

  lemma CanonicalEnds(ips: IPs, s: string, host: string, port: nat)
    requires Canonical(ips, s, host, port)
    ensures s != [] && !IsSpace(s[0]) && !IsSpace(s[|s| - 1])
    ensures TrimSpace(s) == s && '\r' !in s && '\n' !in s && '\t' !in s && ',' !in s && '|' !in s
    ensures s[0] == '[' <==> ':' in host
  {
    var text := Itoa(port);
    assert IsDigit(text[|text| - 1]) && s[|s| - 1] == text[|text| - 1];
    assert ':' !in host ==> s[0] == host[0] && host[0] in host;
    forall c | c in s ensures c in host || IsDigit(c) || c == '[' || c == ']' || c == ':' {
    }
  }

  lemma CanonicalSplits(ips: IPs, s: string, host: string, port: nat)
    requires Canonical(ips, s, host, port)
    ensures SplitHostPort(s) == Some((host, Itoa(port))) && ParsePort(Itoa(port)) == Some(port)
  {
    var text := Itoa(port);
    assert '[' !in host && ']' !in host by {
      assert IsForbidden('[') && IsForbidden(']');
    }
    assert ':' !in text && '[' !in text && ']' !in text;
    JoinSplits(host, text);
    AtoiItoa(port);
  }

  /** A canonical endpoint stays as it is, whatever the default port. */
  lemma CanonicalIsFixed(ips: IPs, s: string, host: string, port: nat, defaultPort: int)
    requires Canonical(ips, s, host, port) && 1 <= defaultPort <= 65535
    ensures Normalize(ips, s, defaultPort) == Ok(s)
  {
    hide Itoa, Atoi, IsZoneLiteral, JoinHostPort, SplitHostPort, TrimSpace;
    CanonicalEnds(ips, s, host, port);
    CanonicalSplits(ips, s, host, port);
  }

  /** Normalizing again changes nothing, even with another default port. */
  lemma NormalizeIsIdempotent(ips: IPs, raw: string, defaultPort: int, otherPort: int)
    requires Laws(ips) && Normalize(ips, raw, defaultPort).Ok? && 1 <= otherPort <= 65535
    ensures Normalize(ips, Normalize(ips, raw, defaultPort).value, otherPort) == Normalize(ips, raw, defaultPort)
  {
    hide Canonical;
    NormalizedIsCanonical(ips, raw, defaultPort);
    var s := Normalize(ips, raw, defaultPort).value;
    var host, port :| Canonical(ips, s, host, port);
    CanonicalIsFixed(ips, s, host, port, otherPort);
  }

  // ----- What is accepted -------------------------------------------------------------------

  predicate IsPlain(c: char)
  {
    'a' <= c <= 'z' || 'A' <= c <= 'Z' || '0' <= c <= '9' || c == '-' || c == '.'
  }

  predicate IsHex(c: char)
  {
    'a' <= c <= 'f' || 'A' <= c <= 'F' || '0' <= c <= '9' || c == ':' || c == '.'
  }

  lemma {:induction false} AsciiLength(s: string)
    requires forall c | c in s :: IsPlain(c) || IsHex(c)
    ensures Len(s) == |s|
  {
    if s != [] {
      AsciiLength(s[..|s| - 1]);
      assert s[|s| - 1] in s;
    }
  }

  lemma PlainIsValid(ips: IPs, host: string)
    requires host != [] && |host| <= 253 && forall c | c in host :: IsPlain(c)
    requires ips.parses(host) || exists c :: c in host && !IsDigit(c) && c != '.'
    ensures ValidHost(ips, host) && ':' !in host && '[' !in host && ']' !in host
    ensures TrimSpace(host) == host && '\r' !in host && '\n' !in host && '\t' !in host
  {
    AsciiLength(host);
    forall c | c in host ensures !IsForbidden(c) && c != '%' && !IsSpace(c) {
    }
    assert host[0] in host && host[|host| - 1] in host;
  }

  /** A host name or IPv4 literal is accepted with a port in range, which it keeps, and without one,
      when it gets the default port; with a port out of range it is refused. */
  lemma HostSpellings(ips: IPs, host: string, port: nat, defaultPort: int)
    requires host != [] && |host| <= 253 && forall c | c in host :: IsPlain(c)
    requires ips.parses(host) || exists c :: c in host && !IsDigit(c) && c != '.'
    requires 1 <= defaultPort <= 65535
    ensures Normalize(ips, host, defaultPort) == Ok(host + ":" + Itoa(defaultPort))
    ensures 1 <= port <= 65535 ==> Normalize(ips, host + ":" + Itoa(port), defaultPort) == Ok(host + ":" + Itoa(port))
    ensures port == 0 || port > 65535 ==> Normalize(ips, host + ":" + Itoa(port), defaultPort).Err?
  {
    hide ValidHost, Itoa, Atoi, TrimSpace, IsZoneLiteral;
    PlainIsValid(ips, host);
    assert host[0] in host && host[|host| - 1] in host;
    var s := host + ":" + Itoa(port);
    assert JoinHostPort(host, Itoa(port)) == s;
    assert !IsSpace(host[0]);
    if 1 <= port <= 65535 {
      assert Canonical(ips, s, host, port);
      CanonicalIsFixed(ips, s, host, port, defaultPort);
    } else {
      PortIsRefused(ips, host, port, defaultPort);
    }
  }

  lemma PortIsRefused(ips: IPs, host: string, port: nat, defaultPort: int)
    requires host != [] && ValidHost(ips, host) && ':' !in host && '[' !in host && ']' !in host && !IsSpace(host[0])
    requires '\r' !in host && '\n' !in host && '\t' !in host
    requires 1 <= defaultPort <= 65535 && (port == 0 || port > 65535)
    ensures Normalize(ips, host + ":" + Itoa(port), defaultPort).Err?
  {
    hide ValidHost, Itoa, Atoi, IsZoneLiteral, SplitHostPort;
    var text := Itoa(port);
    var s := host + ":" + text;
    assert IsDigit(text[|text| - 1]) && s[|s| - 1] == text[|text| - 1] && s[0] == host[0];
    assert TrimSpace(s) == s;
    assert ':' !in text && '[' !in text && ']' !in text;
    PlainSplits(host, text);
    AtoiItoa(port);
  }

  /** So is an IPv6 literal: bracketed with a port, which it keeps, and without one with brackets or
      without them. */
  lemma IPv6Spellings(ips: IPs, host: string, i: nat, j: nat, port: nat, defaultPort: int)
    requires ips.parses(host) && |host| <= 253 && forall c | c in host :: IsHex(c)
    requires i < j < |host| && host[i] == ':' && host[j] == ':'
    requires 1 <= port <= 65535 && 1 <= defaultPort <= 65535
    ensures Normalize(ips, "[" + host + "]:" + Itoa(port), defaultPort) == Ok("[" + host + "]:" + Itoa(port))
    ensures Normalize(ips, "[" + host + "]", defaultPort) == Ok("[" + host + "]:" + Itoa(defaultPort))
    ensures Normalize(ips, host, defaultPort) == Ok("[" + host + "]:" + Itoa(defaultPort))
  {
    HexIsValid(ips, host);
    var s := "[" + host + "]:" + Itoa(port);
    assert Canonical(ips, s, host, port);
    CanonicalIsFixed(ips, s, host, port, defaultPort);
    hide ValidHost, Itoa, SplitHostPort, Normalize, TrimSpace, JoinHostPort, Canonical;
    TwoColons(host, i, j);
    BracketsOnly(host);
    BareIsJoined(ips, host, host, defaultPort);
    BracketedLength(host);
    assert ("[" + host + "]")[1..|host| + 1] == host;
    BareIsJoined(ips, "[" + host + "]", host, defaultPort);
    JoinsBracketed(host, Itoa(defaultPort));
  }

  lemma JoinsBracketed(host: string, text: string)
    requires ':' in host
    ensures JoinHostPort(host, text) == "[" + host + "]:" + text
  {
  }

  /** A literal without a port, with or without brackets. */
  lemma BareIsJoined(ips: IPs, s: string, host: string, defaultPort: int)
    requires host != [] && ValidHost(ips, host) && ips.parses(host) && 1 <= defaultPort <= 65535
    requires TrimSpace(s) == s && '\r' !in s && '\n' !in s && '\t' !in s && SplitHostPort(s) == None
    requires host[0] != '[' && host[|host| - 1] != ']'
    requires || s == host
             || (Len(s) >= 3 && |s| == |host| + 2 && s[0] == '[' && s[|s| - 1] == ']' && s[1..|s| - 1] == host)
    ensures Normalize(ips, s, defaultPort) == Ok(JoinHostPort(host, Itoa(defaultPort)))
  {
    hide ValidHost, Itoa, SplitHostPort, TrimSpace, JoinHostPort, IsZoneLiteral, Len;
  }

  lemma HexIsValid(ips: IPs, host: string)
    requires ips.parses(host) && host != [] && |host| <= 253 && forall c | c in host :: IsHex(c)
    ensures ValidHost(ips, host) && '[' !in host && ']' !in host
    ensures TrimSpace(host) == host && '\r' !in host && '\n' !in host && '\t' !in host
    ensures var b := "[" + host + "]"; TrimSpace(b) == b && '\r' !in b && '\n' !in b && '\t' !in b
  {
    AsciiLength(host);
    forall c | c in host ensures !IsForbidden(c) && c != '%' && !IsSpace(c) {
    }
    assert host[0] in host && host[|host| - 1] in host;
  }

  lemma TwoColons(host: string, i: nat, j: nat)
    requires i < j < |host| && host[i] == ':' && host[j] == ':' && '[' !in host && ']' !in host
    ensures SplitHostPort(host) == None && host[0] != '[' && host[|host| - 1] != ']'
  {
    var last := Last(host, ':').value;
    NotAfter(host, ':', last + 1, j);
    assert host[..last][i] == ':';
  }

  lemma BracketsOnly(host: string)
    requires ':' in host && '[' !in host && ']' !in host
    ensures SplitHostPort("[" + host + "]") == None
  {
    var b := "[" + host + "]";
    var k :| 0 <= k < |host| && host[k] == ':';
    assert b[k + 1] == ':';
    var i := Last(b, ':').value;
    assert b[|b| - 1] == ']' && First(b, ']') + 1 == |b| by {
      assert b == ("[" + host) + [']'] + "";
      FirstIs("[" + host, ']', "");
    }
  }

  lemma BracketedLength(host: string)
    requires host != [] && forall c | c in host :: IsHex(c)
    ensures Len("[" + host + "]") >= 3
  {
    AsciiLength(host);
    ShortLengths();
    LenSum("[", host);
    LenSum("[" + host, "]");
  }

  // ----- Lists ----------------------------------------------------------------------------

  /** The normalized endpoints in order of first appearance, blanks skipped; the first invalid
      one fails the list. */
  function NormalizeAll(ips: IPs, raw: seq<string>, defaultPort: int): Result<seq<string>, EndpointError>
  {
    if raw == [] then Ok([])
    else
      match NormalizeAll(ips, raw[..|raw| - 1], defaultPort)
      case Err(e) => Err(e)
      case Ok(list) =>
        var last := raw[|raw| - 1];
        if TrimSpace(last) == [] then Ok(list)
        else match Normalize(ips, last, defaultPort)
          case Err(e) => Err(e)
          case Ok(s) => Ok(if s in list then list else list + [s])
  }

  predicate NoRepeats(list: seq<string>)
  {
    forall i, j | 0 <= i < j < |list| :: list[i] != list[j]
  }

  ghost predicate AllCanonical(ips: IPs, list: seq<string>)
  {
    forall s | s in list :: IsCanonical(ips, s)
  }

  ghost predicate IsCanonical(ips: IPs, s: string)
  {
    exists host, port :: Canonical(ips, s, host, port)
  }

  lemma {:induction false} NormalizeAllGives(ips: IPs, raw: seq<string>, defaultPort: int)
    requires Laws(ips) && NormalizeAll(ips, raw, defaultPort).Ok?
    ensures var list := NormalizeAll(ips, raw, defaultPort).value;
            && NoRepeats(list) && AllCanonical(ips, list)
            && forall s :: s in list
                 <==> exists k :: 0 <= k < |raw| && TrimSpace(raw[k]) != []
                                 && Normalize(ips, raw[k], defaultPort) == Ok(s)
  {
    hide Normalize, TrimSpace, Laws, Canonical;
    if raw != [] {
      NormalizeAllGives(ips, raw[..|raw| - 1], defaultPort);
      var last := raw[|raw| - 1];
      if TrimSpace(last) != [] {
        NormalizedIsCanonical(ips, last, defaultPort);
      }
    }
  }

  lemma {:induction false} AlreadyNormal(ips: IPs, list: seq<string>, defaultPort: int)
    requires NoRepeats(list) && AllCanonical(ips, list) && 1 <= defaultPort <= 65535
    ensures NormalizeAll(ips, list, defaultPort) == Ok(list)
  {
    hide Normalize, TrimSpace, Canonical;
    if list != [] {
      var before, s := list[..|list| - 1], list[|list| - 1];
      AlreadyNormal(ips, before, defaultPort);
      assert IsCanonical(ips, s);
      var host, port :| Canonical(ips, s, host, port);
      CanonicalIsFixed(ips, s, host, port, defaultPort);
      CanonicalEnds(ips, s, host, port);
      assert before + [s] == list;
    }
  }

  /** So normalizing a normalized list gives it back. */
  lemma NormalizeAllIsIdempotent(ips: IPs, raw: seq<string>, defaultPort: int, otherPort: int)
    requires Laws(ips) && NormalizeAll(ips, raw, defaultPort).Ok? && 1 <= otherPort <= 65535
    ensures NormalizeAll(ips, NormalizeAll(ips, raw, defaultPort).value, otherPort)
            == NormalizeAll(ips, raw, defaultPort)
  {
    NormalizeAllGives(ips, raw, defaultPort);
    AlreadyNormal(ips, NormalizeAll(ips, raw, defaultPort).value, otherPort);
  }

  /** `at` is the index of the entry at fault. */
  method NormalizeEndpoints(ips: IPs, raw: seq<string>, defaultPort: int)
    returns (r: Result<seq<string>, EndpointError>, at: nat)
    ensures r == NormalizeAll(ips, raw, defaultPort)
    ensures r.Err? ==> at < |raw| && TrimSpace(raw[at]) != [] && Normalize(ips, raw[at], defaultPort).Err?
                       && NormalizeAll(ips, raw[..at], defaultPort).Ok?
  {
    hide Normalize, TrimSpace;
    var result: seq<string>, seen: set<string> := [], {};
    for i := 0 to |raw|
      invariant NormalizeAll(ips, raw[..i], defaultPort) == Ok(result)
      invariant forall s :: s in seen <==> s in result
    {
      assert raw[..i + 1][..i] == raw[..i];
      at := i;
      if TrimSpace(raw[i]) == [] {
        continue;
      }
      var normalized := Normalize(ips, raw[i], defaultPort);
      if normalized.Err? {
        ErrSticks(ips, raw, defaultPort, i + 1);
        return Err(normalized.error), i;
      }
      if normalized.value in seen {
        continue;
      }
      seen := seen + {normalized.value};
      result := result + [normalized.value];
    }
    assert raw[..|raw|] == raw;
    at := 0;
    return Ok(result), at;
  }

  lemma {:induction false} ErrSticks(ips: IPs, raw: seq<string>, defaultPort: int, k: nat)
    requires k <= |raw| && NormalizeAll(ips, raw[..k], defaultPort).Err?
    ensures NormalizeAll(ips, raw, defaultPort) == NormalizeAll(ips, raw[..k], defaultPort)
    decreases |raw| - k
  {
    if k < |raw| {
      assert raw[..k + 1][..k] == raw[..k];
      ErrSticks(ips, raw, defaultPort, k + 1);
    } else {
      assert raw[..k] == raw;
    }
  }

  // ----- Metadata -------------------------------------------------------------------------

  /** One more address of a list that holds at most 64, each once; `skip` leaves out empty ones. */
  function Extended(list: seq<string>, s: string, skip: bool): seq<string>
  {
    if |list| >= MAX_ADVERTISED || s in list || (skip && s == "") then list else list + [s]
  }

  function ExtendedAll(list: seq<string>, more: seq<string>, skip: bool): seq<string>
  {
    if more == [] then list else Extended(ExtendedAll(list, more[..|more| - 1], skip), more[|more| - 1], skip)
  }

  lemma {:induction false} ExtendedGives(list: seq<string>, more: seq<string>, skip: bool)
    requires NoRepeats(list) && |list| <= MAX_ADVERTISED
    ensures var r := ExtendedAll(list, more, skip);
            && list <= r && NoRepeats(r) && |r| <= MAX_ADVERTISED
            && (forall s | s in r :: s in list || s in more)
            && (forall s | s in more && !(skip && s == "") :: s in r || |r| == MAX_ADVERTISED)
  {
    if more != [] {
      ExtendedGives(list, more[..|more| - 1], skip);
    }
  }

  /** A configured list that fits is kept whole and in order. */
  lemma {:induction false} AdvertisedWhole(list: seq<string>)
    requires NoRepeats(list) && |list| <= MAX_ADVERTISED && "" !in list
    ensures ExtendedAll([], list, true) == list
  {
    if list != [] {
      AdvertisedWhole(list[..|list| - 1]);
      assert list[..|list| - 1] + [list[|list| - 1]] == list;
    }
  }

  /** The addresses a handshake response carries: advertised ones first, then the machine's own. */
  function Combined(advertised: seq<string>, own: seq<string>): seq<string>
  {
    ExtendedAll(ExtendedAll([], advertised, true), own, false)
  }

  function Metadata(reflected: string, list: seq<string>, punch: string): string
  {
    reflected + "|" + Join(list, ',') + "|" + punch
  }

  /** The server's side. */
  method HandshakeMetadata(reflected: string, advertised: seq<string>, own: seq<string>, punch: string)
    returns (metadata: string)
    ensures metadata == Metadata(reflected, Combined(advertised, own), punch)
  {
    var list: seq<string>, seen: set<string> := [], {};
    for i := 0 to |advertised|
      invariant list == ExtendedAll([], advertised[..i], true) && forall s :: s in seen <==> s in list
    {
      assert advertised[..i + 1][..i] == advertised[..i];
      if |list| >= MAX_ADVERTISED {
        FullStays([], advertised, i, true);
        break;
      }
      var a := advertised[i];
      if a != "" && a !in seen {
        seen := seen + {a};
        list := list + [a];
      }
    }
    assert advertised[..|advertised|] == advertised;
    ghost var first := list;
    for i := 0 to |own|
      invariant list == ExtendedAll(first, own[..i], false) && forall s :: s in seen <==> s in list
    {
      assert own[..i + 1][..i] == own[..i];
      if |list| >= MAX_ADVERTISED {
        FullStays(first, own, i, false);
        break;
      }
      if own[i] !in seen {
        seen := seen + {own[i]};
        list := list + [own[i]];
      }
    }
    assert own[..|own|] == own;
    metadata := Metadata(reflected, list, punch);
  }

  lemma {:induction false} FullStays(list: seq<string>, more: seq<string>, k: nat, skip: bool)
    requires k <= |more| && |ExtendedAll(list, more[..k], skip)| >= MAX_ADVERTISED
    ensures ExtendedAll(list, more, skip) == ExtendedAll(list, more[..k], skip)
    decreases |more| - k
  {
    if k < |more| {
      assert more[..k + 1][..k] == more[..k];
      FullStays(list, more, k + 1, skip);
    } else {
      assert more[..k] == more;
    }
  }

  /** The client's side: the three fields, and the endpoints it tries. */
  function Fields(metadata: string): seq<string>
  {
    SplitN(metadata, '|', 3)
  }

  function Tried(ips: IPs, parts: seq<string>, defaultPort: int): seq<string>
  {
    if parts == [] then []
    else
      var s := TrimSpace(parts[0]);
      (if s == [] then [] else match Normalize(ips, s, defaultPort) case Ok(e) => [e] case Err(_) => [])
      + Tried(ips, parts[1..], defaultPort)
  }

  function ClientEndpoints(ips: IPs, metadata: string, defaultPort: int): seq<string>
  {
    var parts := Fields(metadata);
    if |parts| > 1 && parts[1] != [] then Tried(ips, Split(parts[1], ','), defaultPort) else []
  }

  lemma ThreeFields(a: string, b: string, c: string)
    requires '|' !in a && '|' !in b
    ensures Fields(a + "|" + b + "|" + c) == [a, b, c]
  {
    var s := a + "|" + b + "|" + c;
    assert s == a + ['|'] + (b + "|" + c);
    FirstIs(a, '|', b + "|" + c);
    assert s[..|a|] == a && s[|a| + 1..] == b + "|" + c;
    var t := b + "|" + c;
    assert t == b + ['|'] + c;
    FirstIs(b, '|', c);
    assert t[..|b|] == b && t[|b| + 1..] == c;
    assert SplitN(t, '|', 2) == [b] + SplitN(c, '|', 1);
    assert SplitN(s, '|', 3) == [a] + SplitN(t, '|', 2);
  }

  lemma {:induction false} NoBarInJoin(ips: IPs, list: seq<string>)
    requires AllCanonical(ips, list)
    ensures '|' !in Join(list, ',')
  {
    hide Canonical;
    if list != [] {
      assert IsCanonical(ips, list[0]);
      var host, port :| Canonical(ips, list[0], host, port);
      CanonicalEnds(ips, list[0], host, port);
      NoBarInJoin(ips, list[1..]);
    }
  }

  lemma {:induction false} TriedAll(ips: IPs, list: seq<string>, defaultPort: int)
    requires AllCanonical(ips, list) && 1 <= defaultPort <= 65535
    ensures Tried(ips, list, defaultPort) == list
  {
    hide Canonical, Normalize, TrimSpace;
    if list != [] {
      assert IsCanonical(ips, list[0]);
      var host, port :| Canonical(ips, list[0], host, port);
      CanonicalEnds(ips, list[0], host, port);
      CanonicalIsFixed(ips, list[0], host, port, defaultPort);
      TriedAll(ips, list[1..], defaultPort);
      assert [list[0]] + list[1..] == list;
    }
  }

  /** The client gets back the reflected address, exactly the list and the punch endpoint,
      whatever its own default port. */
  lemma MetadataRoundTrip(ips: IPs, reflected: string, list: seq<string>, punch: string, defaultPort: int)
    requires '|' !in reflected && AllCanonical(ips, list) && 1 <= defaultPort <= 65535
    ensures var m := Metadata(reflected, list, punch);
            && Fields(m) == [reflected, Join(list, ','), punch]
            && ClientEndpoints(ips, m, defaultPort) == list
  {
    hide Canonical;
    NoBarInJoin(ips, list);
    ThreeFields(reflected, Join(list, ','), punch);
    if list != [] {
      forall s | s in list ensures ',' !in s && s != [] {
        assert IsCanonical(ips, s);
        var host, port :| Canonical(ips, s, host, port);
        CanonicalEnds(ips, s, host, port);
      }
      JoinThenSplit(list, ',');
      assert list[0] in list && Join(list, ',') != [];
      TriedAll(ips, list, defaultPort);
    }
  }

  /** So a client of a server whose endpoints were normalized at start, however spelled in its
      configuration, tries exactly those endpoints, first and in order. */
  lemma AdvertisedArrives(ips: IPs, raw: seq<string>, serverPort: int, own: seq<string>, reflected: string,
                          punch: string, defaultPort: int)
    requires Laws(ips) && NormalizeAll(ips, raw, serverPort).Ok?
    requires |NormalizeAll(ips, raw, serverPort).value| <= 64
    requires AllCanonical(ips, own) && '|' !in reflected && 1 <= defaultPort <= 65535
    ensures var advertised := NormalizeAll(ips, raw, serverPort).value;
            var list := Combined(advertised, own);
            && advertised <= list && NoRepeats(list) && |list| <= 64
            && ClientEndpoints(ips, Metadata(reflected, list, punch), defaultPort) == list
            && Fields(Metadata(reflected, list, punch))[2..] == [punch]
  {
    hide NormalizeAll, Normalize, Canonical, ClientEndpoints, Fields, Metadata;
    NormalizeAllGives(ips, raw, serverPort);
    var advertised := NormalizeAll(ips, raw, serverPort).value;
    NoneEmpty(ips, advertised);
    AdvertisedWhole(advertised);
    ExtendedGives(advertised, own, false);
    forall s | s in Combined(advertised, own) ensures IsCanonical(ips, s) {
      assert s in advertised || s in own;
    }
    MetadataRoundTrip(ips, reflected, Combined(advertised, own), punch, defaultPort);
  }

  lemma NoneEmpty(ips: IPs, list: seq<string>)
    requires AllCanonical(ips, list)
    ensures "" !in list
  {
    forall s | s in list ensures s != "" {
      assert IsCanonical(ips, s);
    }
  }

  // ----- Size -----------------------------------------------------------------------------

  const MAX_ENDPOINT: nat := MAX_HOST + 8 // brackets, colon and five digits

  lemma CanonicalLength(ips: IPs, s: string, host: string, port: nat)
    requires Canonical(ips, s, host, port)
    ensures Len(s) <= MAX_ENDPOINT
  {
    var text := Itoa(port);
    PortLength(port);
    DigitsLength(text);
    ShortLengths();
    if ':' in host {
      LenSum("[", host);
      LenSum("[" + host, "]:");
      LenSum("[" + host + "]:", text);
    } else {
      LenSum(host, ":");
      LenSum(host + ":", text);
    }
  }

  lemma ShortLengths()
    ensures Len("[") == 1 && Len(":") == 1 && Len(",") == 1 && Len("|") == 1 && Len("]:") == 2
  {
    assert "]:"[..1] == "]";
    assert Len("]") == 1;
  }

  lemma {:induction false} DigitsLength(s: string)
    requires forall c | c in s :: IsDigit(c)
    ensures Len(s) == |s|
  {
    if s != [] {
      DigitsLength(s[..|s| - 1]);
      assert IsDigit(s[|s| - 1]);
    }
  }

  lemma {:induction false} JoinLength(ips: IPs, list: seq<string>)
    requires AllCanonical(ips, list)
    ensures Len(Join(list, ',')) <= |list| * (MAX_ENDPOINT + 1)
  {
    hide Canonical;
    if list != [] {
      assert IsCanonical(ips, list[0]);
      var host, port :| Canonical(ips, list[0], host, port);
      CanonicalLength(ips, list[0], host, port);
      JoinLength(ips, list[1..]);
      ShortLengths();
      LenSum(list[0], ",");
      LenSum(list[0] + ",", Join(list[1..], ','));
    }
  }

  /** Sixty-four endpoints always fit the limit NewHandshakeResponse checks, whatever their
      hosts, with more than 48 000 bytes to spare for the reflected and punch addresses. */
  lemma MetadataFits(ips: IPs, reflected: string, list: seq<string>, punch: string)
    requires AllCanonical(ips, list) && |list| <= MAX_ADVERTISED
    requires Len(reflected) + Len(punch) <= 48_000
    ensures Len(Metadata(reflected, list, punch)) <= MAX_METADATA
  {
    JoinLength(ips, list);
    ShortLengths();
    LenSum(reflected, "|");
    LenSum(reflected + "|", Join(list, ','));
    LenSum(reflected + "|" + Join(list, ','), "|");
    LenSum(reflected + "|" + Join(list, ',') + "|", punch);
    assert |list| * (MAX_ENDPOINT + 1) <= MAX_ADVERTISED * (MAX_ENDPOINT + 1);
  }
}
