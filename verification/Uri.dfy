/** The sql:// URI parser of uri.c. */
module Uri {
  import opened Prelude
  import opened CStrings

  // ----- userinfo

  datatype Userinfo = Userinfo(user: Option<string>, password: Option<string>, rest: string)

  /** The text up to the last '@' is user and password if it has a ':'. */
  function ParseUserinfo(uri: string): Userinfo {
    if '@' !in uri then Userinfo(None, None, uri)
    else
      var at := LastIndexOf(uri, '@');
      match Cut(uri[..at], ':')
      case None => Userinfo(None, None, uri[at + 1..])
      case Some(cut) => Userinfo(Some(cut.0), Some(cut.1), uri[at + 1..])
  }

  // ----- host

  /** The host and what remains of the URI, if anything does; None is EINVAL. */
  function ParseHost(uri: string): Option<(string, Option<string>)> {
    if uri != "" && uri[0] == '[' then
      match Cut(uri[1..], ']')
      case None => None
      case Some(cut) => Some((cut.0, Some(cut.1)))
    else if uri != "" && ':' in uri[1..] then
      var k := 1 + IndexOf(uri[1..], ':');
      Some((uri[..k], Some(uri[k..])))
    else if (uri != "" && uri[0] == '/') || '/' !in uri then Some((uri, None))
    else Some((uri[..IndexOf(uri, '/')], Some(uri[IndexOf(uri, '/')..])))
  }

  // ----- port

  predicate IsDigit(c: char) { '0' <= c <= '9' }

  predicate Digits(s: string) { forall i :: 0 <= i < |s| ==> IsDigit(s[i]) }

  /** The value of a digit string. */
  function Atoi(s: string): nat
    requires Digits(s)
  {
    if s == "" then 0 else 10 * Atoi(s[..|s| - 1]) + (s[|s| - 1] as int - '0' as int)
  }

  const INT_MAX := 2147483647

  /** The port field behind the ':' that `uri` starts with, and the path behind it. */
  function PortField(uri: string): (string, Option<string>)
    requires uri != "" && uri[0] == ':'
  {
    var i := IndexOf(uri, '/');
    if i == |uri| then (uri[1..], None) else (uri[1..i], Some(uri[i..]))
  }

  /** atoi is only defined for values that fit an int. */
  predicate FitsInt(field: string) { Digits(field) ==> Atoi(field) <= INT_MAX }

  function ParsePort(uri: string): Option<(nat, Option<string>)>
    requires uri != "" && uri[0] == ':'
  {
    var field := PortField(uri);
    if Digits(field.0) && 1 <= Atoi(field.0) <= 65535 then Some((Atoi(field.0), field.1)) else None
  }

  method UriParsePort(uri: string) returns (r: Option<(nat, Option<string>)>)
    requires uri != "" && uri[0] == ':' && FitsInt(PortField(uri).0)
    ensures r == ParsePort(uri)
  {
    var ptr := IndexOf(uri, '/');
    var portspec, remaining := uri[1..], None;
    if ptr < |uri| {
      portspec, remaining := uri[1..ptr], Some(uri[ptr..]);
    }
    for i := 0 to |portspec|
      invariant Digits(portspec[..i])
    {
      if !IsDigit(portspec[i]) {
        return None;
      }
      assert portspec[..i + 1] == portspec[..i] + [portspec[i]];
    }
    assert portspec[..|portspec|] == portspec;
    var port := Atoi(portspec);
    if port == 0 || port >= 65536 {
      return None;
    }
    r := Some((port, remaining));
  }

  // ----- parameters

  /** A stored parameter with the length it was stored under. */
  datatype Entry = Entry(value: string, len: nat)

  type Table = map<string, Entry>

  /** Store the remaining segments; `total` is the length of the whole query. None is EINVAL. */
  function ParseParams(query: string, total: nat, params: Table): Option<Table>
    requires |query| <= total
    decreases |query|
  {
    match Cut(query, '&')
    case Some(cut) =>
      (match Cut(cut.0, '=')
       case None => None
       case Some(kv) => ParseParams(cut.1, total, params[kv.0 := Entry(kv.1, |kv.1|)]))
    case None =>
      match Cut(query, '=')
      case None => None
      case Some(kv) => Some(params[kv.0 := Entry(kv.1, total - |kv.0| - 1)])
  }

  method UriParseParams(query: string, params: Table) returns (r: Option<Table>)
    ensures r == ParseParams(query, |query|, params)
  {
    var rest, table := query, params;
    var ptr := Cut(rest, '&');
    while ptr.Some?
      invariant ptr == Cut(rest, '&') && |rest| <= |query|
      invariant ParseParams(rest, |query|, table) == ParseParams(query, |query|, params)
      decreases |rest|
    {
      var kv := Cut(ptr.value.0, '=');
      if kv.None? {
        return None;
      }
      table := table[kv.value.0 := Entry(kv.value.1, |kv.value.1|)];
      rest := ptr.value.1;
      ptr := Cut(rest, '&');
    }
    var kv := Cut(rest, '=');
    if kv.None? {
      return None;
    }
    r := Some(table[kv.value.0 := Entry(kv.value.1, |query| - |kv.value.0| - 1)]);
  }

  // ----- the whole URI

  datatype Parsed = Parsed(
    user: Option<string>, password: Option<string>, host: string, port: nat, path: Option<string>, params: Table)

  predicate HasScheme(s: string) { |s| >= 7 && s[..6] == "sql://" }

  /** Everything but the parameters. */
  function ParseAuthority(uri: string, params: Table): Option<Parsed> {
    var info := ParseUserinfo(uri);
    match ParseHost(info.rest)
    case None => None
    case Some(host) =>
      match host.1
      case None => Some(Parsed(info.user, info.password, host.0, 0, None, params))
      case Some(rest) =>
        if ':' !in rest then Some(Parsed(info.user, info.password, host.0, 0, Some(rest), params))
        else
          match ParsePort(rest[IndexOf(rest, ':')..])
          case None => None
          case Some(port) => Some(Parsed(info.user, info.password, host.0, port.0, port.1, params))
  }

  function ParseUri(s: string): Option<Parsed> {
    if !HasScheme(s) then None
    else match Cut(s[6..], '?')
      case None => ParseAuthority(s[6..], map[])
      case Some(cut) =>
        match ParseParams(cut.1, |cut.1|, map[])
        case None => None
        case Some(params) => ParseAuthority(cut.0, params)
  }

  /** The port field the parser comes to look at, if any, is within what atoi is defined for. */
  predicate PortFits(authority: string) {
    match ParseHost(ParseUserinfo(authority).rest)
    case None => true
    case Some(host) =>
      host.1.Some? && ':' in host.1.value ==>
        FitsInt(PortField(host.1.value[IndexOf(host.1.value, ':')..]).0)
  }

  method UriParse(orig: string) returns (r: Option<Parsed>)
    requires HasScheme(orig) ==>
               PortFits(match Cut(orig[6..], '?') case None => orig[6..] case Some(cut) => cut.0)
    ensures r == ParseUri(orig)
  {
    if |orig| < 7 {
      return None;
    }
    if orig[..6] != "sql://" {
      return None;
    }
    var uri, params := orig[6..], map[];
    var ptr := Cut(uri, '?');
    if ptr.Some? {
      var parsed := UriParseParams(ptr.value.1, params);
      if parsed.None? {
        return None;
      }
      params := parsed.value;
      uri := ptr.value.0;
    }
    var info := ParseUserinfo(uri);
    var host := ParseHost(info.rest);
    if host.None? {
      return None;
    }
    var port, path := 0, None;
    if host.value.1.Some? {
      var rest := host.value.1.value;
      path := Some(rest);
      if ':' in rest {
        var parsed := UriParsePort(rest[IndexOf(rest, ':')..]);
        if parsed.None? {
          return None;
        }
        port, path := parsed.value.0, parsed.value.1;
      }
    }
    r := Some(Parsed(info.user, info.password, host.value.0, port, path, params));
  }
}
