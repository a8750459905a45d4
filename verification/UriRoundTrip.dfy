/** A URI put together from its components parses into those components. */
module UriRoundTrip {
  import opened Prelude
  import opened CStrings
  import opened Param
  import opened Uri

  datatype Host = Named(name: string) | Bracketed(address: string) | AbsolutePath(file: string)

  /** The password may be missing; the port is a digit string, leading zeros and all. */
  datatype Components = Components(
    login: Option<(string, Option<string>)>, host: Host, port: Option<string>, path: Option<string>,
    query: seq<(string, string)>)

  function HostText(h: Host): string {
    match h
    case Named(name) => name
    case Bracketed(address) => "[" + address + "]"
    case AbsolutePath(file) => file
  }

  /** What stands between the host and the query. */
  function PortAndPath(c: Components): string {
    (if c.port.Some? then ":" + c.port.value else "") + if c.path.Some? then c.path.value else ""
  }

  /** The host and everything up to the query. */
  function Location(c: Components): string { HostText(c.host) + PortAndPath(c) }

  function LoginText(c: Components): string {
    match c.login
    case None => ""
    case Some((user, None)) => user + "@"
    case Some((user, Some(password))) => user + ":" + password + "@"
  }

  function Authority(c: Components): string {
    LoginText(c) + Location(c)
  }

  function Query(kvs: seq<(string, string)>): string
    requires kvs != []
  {
    kvs[0].0 + "=" + kvs[0].1 + if |kvs| == 1 then "" else "&" + Query(kvs[1..])
  }

  function Render(c: Components): string {
    "sql://" + Authority(c) + if c.query == [] then "" else "?" + Query(c.query)
  }

  predicate LegalHost(c: Components) {
    match c.host
    case Named(name) => name != "" && ':' !in name && '/' !in name && name[0] != '['
    case Bracketed(address) => ']' !in address
    case AbsolutePath(file) => file != "" && file[0] == '/' && ':' !in file && (c.port.None? ==> c.path.None?)
  }

  predicate LegalPort(digits: string) { Digits(digits) && 1 <= Atoi(digits) <= 65535 }

  /** Everything but the port field is legal. */
  predicate Shaped(c: Components) {
    && LegalHost(c)
    && (c.login.Some? ==> ':' !in c.login.value.0)
    && '@' !in Location(c)
    && '?' !in Authority(c)
    && (c.port.Some? ==> '/' !in c.port.value)
    && (c.path.Some? ==> c.path.value != "" && c.path.value[0] == '/' && (c.port.None? ==> ':' !in c.path.value))
    && LegalQuery(c.query)
  }

  predicate Legal(c: Components) {
    Shaped(c) && (c.port.Some? ==> LegalPort(c.port.value))
  }

  predicate LegalQuery(kvs: seq<(string, string)>) {
    forall i :: 0 <= i < |kvs| ==> '=' !in kvs[i].0 && '&' !in kvs[i].0 && '&' !in kvs[i].1
  }

  // ----- the query

  /** Later pairs win; the last one is stored under a length that counts the whole query. */
  function TableOf(kvs: seq<(string, string)>, total: nat, params: Table): Table
    requires kvs != [] && |Query(kvs)| <= total
  {
    var kv := kvs[0];
    if |kvs| == 1 then params[kv.0 := Entry(kv.1, total - |kv.0| - 1)]
    else TableOf(kvs[1..], total, params[kv.0 := Entry(kv.1, |kv.1|)])
  }

  lemma {:induction false} QueryReadsBack(kvs: seq<(string, string)>, total: nat, params: Table)
    requires kvs != [] && LegalQuery(kvs) && |Query(kvs)| <= total
    ensures ParseParams(Query(kvs), total, params) == Some(TableOf(kvs, total, params))
    decreases |kvs|
  {
    var kv := kvs[0];
    var pair := kv.0 + ['='] + kv.1;
    CutAfter(kv.0, '=', kv.1);
    assert '&' !in pair;
    if |kvs| == 1 {
      assert Query(kvs) == pair;
      CutAfter(pair, '&', "");
    } else {
      assert Query(kvs) == pair + ['&'] + Query(kvs[1..]);
      CutAfter(pair, '&', Query(kvs[1..]));
      QueryReadsBack(kvs[1..], total, params[kv.0 := Entry(kv.1, |kv.1|)]);
    }
  }

  /** The last value given to a key is the one stored, and no other keys appear. */
  lemma {:induction false} LastValueWins(kvs: seq<(string, string)>, total: nat, params: Table, k: string)
    requires kvs != [] && |Query(kvs)| <= total
    ensures k in TableOf(kvs, total, params) <==> k in params || exists i :: 0 <= i < |kvs| && kvs[i].0 == k
    ensures forall i :: 0 <= i < |kvs| && kvs[i].0 == k && (forall j :: i < j < |kvs| ==> kvs[j].0 != k) ==>
              k in TableOf(kvs, total, params) && TableOf(kvs, total, params)[k].value == kvs[i].1
    ensures (forall i :: 0 <= i < |kvs| ==> kvs[i].0 != k) && k in params ==>
              k in TableOf(kvs, total, params) && TableOf(kvs, total, params)[k] == params[k]
    decreases |kvs|
  {
    if |kvs| > 1 {
      var kv, rest := kvs[0], kvs[1..];
      assert forall i :: 0 <= i < |rest| ==> rest[i] == kvs[i + 1];
      assert forall i :: 1 <= i < |kvs| ==> kvs[i] == rest[i - 1];
      LastValueWins(rest, total, params[kv.0 := Entry(kv.1, |kv.1|)], k);
    }
  }

  /** `map=ftpmap` in front of another parameter: the map parser is handed a table name "ftpma". */
  lemma {:induction false} MapNameLosesACharacter()
    ensures var kvs := [("map", "ftpmap"), ("ctx", "ftpctx")];
            var params := TableOf(kvs, |Query(kvs)|, map[]);
            && "map" in params && params["map"] == Entry("ftpmap", 6)
            && Grammar(2, Some("ftpmap"), 6) == Some(Params(Some("ftpma"), None, None))
  {
    var kvs := [("map", "ftpmap"), ("ctx", "ftpctx")];
    var params := map["map" := Entry("ftpmap", 6)];
    assert kvs[1..] == [("ctx", "ftpctx")];
    assert TableOf(kvs, |Query(kvs)|, map[]) == TableOf(kvs[1..], |Query(kvs)|, map[]["map" := Entry("ftpmap", 6)]);
    IndexOfIs("ftpmap", ':', 6);
    assert "ftpmap"[..5] == "ftpma";
  }

  // ----- userinfo, host, port

  lemma {:induction false} LastIndexOfIs(s: string, c: char, i: nat)
    requires i < |s| && s[i] == c && forall j :: i < j < |s| ==> s[j] != c
    ensures LastIndexOf(s, c) == i
  {
  }

  lemma {:induction false} LoginReadsBack(user: string, password: string, rest: string)
    requires ':' !in user && '@' !in rest
    ensures ParseUserinfo(user + ":" + password + "@" + rest) == Userinfo(Some(user), Some(password), rest)
  {
    var info := user + [':'] + password;
    var uri := user + ":" + password + "@" + rest;
    assert uri == info + ['@'] + rest;
    forall j | |info| < j < |uri| ensures uri[j] != '@' {
      assert uri[j] == rest[j - |info| - 1];
    }
    LastIndexOfIs(uri, '@', |info|);
    assert uri[..|info|] == info && uri[|info| + 1..] == rest;
    CutAfter(user, ':', password);
  }

  /** Without a ':' before the last '@' there is no user either; what follows the '@' is the rest. */
  lemma {:induction false} UserAloneIgnored(user: string, rest: string)
    requires ':' !in user && '@' !in rest
    ensures ParseUserinfo(user + "@" + rest) == Userinfo(None, None, rest)
  {
    var uri := user + "@" + rest;
    forall j | |user| < j < |uri| ensures uri[j] != '@' {
      assert uri[j] == rest[j - |user| - 1];
    }
    LastIndexOfIs(uri, '@', |user|);
    assert uri[..|user|] == user && uri[|user| + 1..] == rest;
    CutAfter(user, ':', "");
  }

  lemma {:induction false} AddressReadsBack(address: string, rest: string)
    requires ']' !in address
    ensures ParseHost("[" + address + "]" + rest) == Some((address, Some(rest)))
  {
    var uri := "[" + address + "]" + rest;
    assert uri[1..] == address + [']'] + rest;
    CutAfter(address, ']', rest);
  }

  /** A named host ends at the first ':' or, without any, at the first '/'. */
  lemma {:induction false} NameReadsBack(name: string, rest: string)
    requires name != "" && ':' !in name && '/' !in name && name[0] != '['
    requires rest == "" || rest[0] == ':' || (rest[0] == '/' && ':' !in rest)
    ensures ParseHost(name + rest) == Some((name, if rest == "" then None else Some(rest)))
  {
    var uri := name + rest;
    assert uri[..|name|] == name && uri[|name|..] == rest;
    assert uri[0] == name[0] && uri[1..] == name[1..] + rest;
    if rest == "" {
      assert uri == name;
    } else if rest[0] == ':' {
      assert uri[1..][|name| - 1] == ':';
      IndexOfIs(uri[1..], ':', |name| - 1);
    } else {
      assert ':' !in uri[1..];
      assert uri[|name|] == '/';
      IndexOfIs(uri, '/', |name|);
    }
  }

  /** Before a port anything but a bracket is a host, slashes included, up to the first ':' behind it. */
  lemma {:induction false} HostBeforePort(host: string, rest: string)
    requires host != "" && host[0] != '[' && ':' !in host[1..] && rest != "" && rest[0] == ':'
    ensures ParseHost(host + rest) == Some((host, Some(rest)))
  {
    var uri := host + rest;
    assert uri[0] == host[0] && uri[1..] == host[1..] + rest;
    assert uri[1..][|host| - 1] == ':';
    IndexOfIs(uri[1..], ':', |host| - 1);
    assert uri[..|host|] == host && uri[|host|..] == rest;
  }

  lemma {:induction false} FileReadsBack(file: string)
    requires file != "" && file[0] == '/' && ':' !in file
    ensures ParseHost(file) == Some((file, None))
  {
  }

  lemma {:induction false} FieldReadsBack(field: string, path: Option<string>)
    requires '/' !in field && (path.Some? ==> path.value != "" && path.value[0] == '/')
    ensures PortField(":" + field + if path.Some? then path.value else "") == (field, path)
  {
    var uri := ":" + field + if path.Some? then path.value else "";
    assert forall j :: 0 <= j < 1 + |field| ==> uri[j] != '/';
    assert uri[1..1 + |field|] == field;
    IndexOfIs(uri, '/', 1 + |field|);
    if path.Some? {
      assert uri[1 + |field|..] == path.value;
    } else {
      assert uri[1..] == field;
    }
  }

  /** A port field is accepted exactly when it is all digits and its value, whatever its zeros, in range. */
  lemma {:induction false} PortAcceptedIff(field: string, path: Option<string>)
    requires '/' !in field && (path.Some? ==> path.value != "" && path.value[0] == '/')
    ensures var r := ParsePort(":" + field + if path.Some? then path.value else "");
            && (r.Some? <==> (forall i :: 0 <= i < |field| ==> '0' <= field[i] <= '9') && 1 <= Atoi(field) <= 65535)
            && (r.Some? ==> r.value == (Atoi(field), path))
  {
    FieldReadsBack(field, path);
  }

  /** The decimal digits of a number. */
  function Decimal(n: nat): (s: string)
    ensures Digits(s)
  {
    if n == 0 then "" else Decimal(n / 10) + ["0123456789"[n % 10]]
  }

  /** The value of a port field is the number it is the decimal notation of. */
  lemma {:induction false} AtoiInvertsDecimal(n: nat)
    ensures Atoi(Decimal(n)) == n
  {
    if n > 0 {
      var s := Decimal(n);
      AtoiInvertsDecimal(n / 10);
      assert s[..|s| - 1] == Decimal(n / 10);
      assert s[|s| - 1] as int - '0' as int == n % 10;
    }
  }

  lemma {:induction false} ZerosDoNotCount(digits: string)
    requires Digits(digits)
    ensures Digits("0" + digits) && Atoi("0" + digits) == Atoi(digits)
  {
    var s := "0" + digits;
    if digits == "" {
      assert s[..0] == "";
    } else {
      assert s[..|s| - 1] == "0" + digits[..|digits| - 1];
      ZerosDoNotCount(digits[..|digits| - 1]);
    }
  }

  // ----- the whole

  function HostName(h: Host): string {
    match h
    case Named(name) => name
    case Bracketed(address) => address
    case AbsolutePath(file) => file
  }

  /** A user without a password is dropped. */
  function User(c: Components): Option<string> {
    if c.login.Some? && c.login.value.1.Some? then Some(c.login.value.0) else None
  }

  function Password(c: Components): Option<string> {
    if c.login.Some? then c.login.value.1 else None
  }

  /** The components as parsed: a bracketed host always leaves a path, if only an empty one. */
  function Expected(c: Components, params: Table): Parsed
    requires c.port.Some? ==> Digits(c.port.value)
  {
    Parsed(
      User(c),
      Password(c),
      HostName(c.host),
      if c.port.Some? then Atoi(c.port.value) else 0,
      if c.path.None? && c.port.None? && c.host.Bracketed? then Some("") else c.path,
      params)
  }

  lemma {:induction false} UserinfoReadsBack(c: Components)
    requires Shaped(c)
    ensures ParseUserinfo(Authority(c)) ==
            Userinfo(User(c), Password(c), Location(c))
  {
    match c.login
    case None => assert Authority(c) == Location(c);
    case Some((user, None)) => UserAloneIgnored(user, Location(c));
    case Some((user, Some(password))) => LoginReadsBack(user, password, Location(c));
  }

  lemma {:induction false} HostReadsBack(c: Components)
    requires Shaped(c)
    ensures ParseHost(Location(c)) ==
            Some((HostName(c.host), if PortAndPath(c) == "" && !c.host.Bracketed? then None else Some(PortAndPath(c))))
  {
    var rest := PortAndPath(c);
    if c.port.Some? {
      assert rest[0] == ':';
    } else if c.path.Some? {
      assert rest == c.path.value;
    }
    match c.host
    case Named(name) => NameReadsBack(name, rest);
    case Bracketed(address) => AddressReadsBack(address, rest);
    case AbsolutePath(file) =>
      if c.port.Some? {
        HostBeforePort(file, rest);
      } else {
        FileReadsBack(file);
        assert Location(c) == file;
      }
  }

  lemma {:induction false} AuthorityReadsBack(c: Components, params: Table)
    requires Shaped(c)
    ensures ParseAuthority(Authority(c), params) == if Legal(c) then Some(Expected(c, params)) else None
    ensures Legal(c) ==> PortFits(Authority(c))
  {
    UserinfoReadsBack(c);
    HostReadsBack(c);
    var rest := PortAndPath(c);
    if c.port.Some? {
      var field := ":" + c.port.value + if c.path.Some? then c.path.value else "";
      assert rest == field && rest[0] == ':';
      IndexOfIs(rest, ':', 0);
      assert rest[0..] == rest;
      FieldReadsBack(c.port.value, c.path);
      PortAcceptedIff(c.port.value, c.path);
    } else {
      assert rest == if c.path.Some? then c.path.value else "";
    }
  }

  lemma {:induction false} SchemeOf(auth: string, rest: string)
    requires auth != ""
    ensures HasScheme("sql://" + auth + rest) && ("sql://" + auth + rest)[6..] == auth + rest
  {
    var s := "sql://" + auth + rest;
    assert s[..6] == "sql://";
  }

  /**
   * Parsing a rendered URI gives back user, password, host, port, path and parameters, or fails if
   * the port field is not a number in range.
   */
  lemma {:induction false} UriReadsBack(c: Components)
    requires Shaped(c)
    ensures ParseUri(Render(c)) ==
            if Legal(c) then Some(Expected(c, if c.query == [] then map[] else TableOf(c.query, |Query(c.query)|, map[])))
            else None
  {
    var auth := Authority(c);
    assert |Location(c)| >= 1;
    if c.query == [] {
      SchemeOf(auth, "");
      assert auth + "" == auth;
      CutAfter(auth, '?', "");
      AuthorityReadsBack(c, map[]);
    } else {
      var q := Query(c.query);
      SchemeOf(auth, "?" + q);
      assert auth + ("?" + q) == auth + ['?'] + q;
      CutAfter(auth, '?', q);
      QueryReadsBack(c.query, |q|, map[]);
      AuthorityReadsBack(c, TableOf(c.query, |q|, map[]));
    }
  }

  // ----- what is rejected

  /** Another scheme, in whatever case, or nothing behind it. */
  lemma {:induction false} WrongScheme(s: string)
    requires |s| < 7 || s[..6] != "sql://"
    ensures ParseUri(s) == None
  {
  }

  function Segments(segments: seq<string>): string
    requires segments != []
  {
    segments[0] + if |segments| == 1 then "" else "&" + Segments(segments[1..])
  }

  /** A query is accepted exactly when each of its segments has a '='. */
  lemma {:induction false} QueryAcceptedIff(segments: seq<string>, total: nat, params: Table)
    requires segments != [] && (forall i :: 0 <= i < |segments| ==> '&' !in segments[i])
    requires |Segments(segments)| <= total
    ensures ParseParams(Segments(segments), total, params).Some? <==>
            forall i :: 0 <= i < |segments| ==> '=' in segments[i]
    decreases |segments|
  {
    var first := segments[0];
    IndexFound(first, '=');
    if |segments| == 1 {
      assert Segments(segments) == first;
      CutAfter(first, '&', "");
    } else {
      var rest := segments[1..];
      assert Segments(segments) == first + ['&'] + Segments(rest);
      CutAfter(first, '&', Segments(rest));
      assert forall i :: 0 <= i < |rest| ==> rest[i] == segments[i + 1];
      assert forall i :: 1 <= i < |segments| ==> segments[i] == rest[i - 1];
      if '=' in first {
        var kv := Cut(first, '=').value;
        QueryAcceptedIff(rest, total, params[kv.0 := Entry(kv.1, |kv.1|)]);
      }
    }
  }

  lemma {:induction false} IndexFound(s: string, c: char)
    ensures c in s <==> Cut(s, c).Some?
  {
  }

  /** Then the whole URI is rejected. */
  lemma {:induction false} SegmentRejected(auth: string, segments: seq<string>, bad: nat)
    requires auth != "" && '?' !in auth && bad < |segments| && '=' !in segments[bad]
    requires forall i :: 0 <= i < |segments| ==> '&' !in segments[i]
    ensures ParseUri("sql://" + auth + ("?" + Segments(segments))) == None
  {
    var q := Segments(segments);
    SchemeOf(auth, "?" + q);
    assert auth + ("?" + q) == auth + ['?'] + q;
    CutAfter(auth, '?', q);
    QueryAcceptedIff(segments, |q|, map[]);
  }

  /** A bracket that is not closed, behind a login or not. */
  lemma {:induction false} OpenBracketRejected(c: Components, text: string)
    requires c.login.Some? ==> ':' !in c.login.value.0
    requires ']' !in text && '@' !in text && '?' !in text && '?' !in LoginText(c)
    ensures ParseUri("sql://" + (LoginText(c) + ("[" + text)) + "") == None
  {
    var rest := "[" + text;
    var auth := LoginText(c) + rest;
    SchemeOf(auth, "");
    assert auth + "" == auth;
    assert '@' !in rest && '?' !in auth;
    CutAfter(auth, '?', "");
    match c.login {
      case None => assert auth == rest;
      case Some((user, None)) => UserAloneIgnored(user, rest);
      case Some((user, Some(password))) => LoginReadsBack(user, password, rest);
    }
    assert rest[1..] == text;
    IndexFound(text, ']');
  }
}
