/** The details of the database the generated records go to: checked when the value is built,
    rendered as a CUBRID JDBC URL, and compared without regard to the password. */
module Connection {
  import opened Wrappers
  import opened Strings

  /** A built connection value. Host and database name are stored trimmed. */
  datatype ConnectionInfo = ConnectionInfo(host: string, port: int, databaseName: string,
                                           username: string, password: string)

  /** Why building a connection value fails; the checks run in this order. */
  datatype ConnectionError = BlankHost | PortOutOfRange | BlankDatabaseName | NullUsername | NullPassword

  const MinPort: int := 1
  const MaxPort: int := 65535

  /** What a host or a database name must be: present, and not only characters `trim` removes. */
  predicate Filled(s: Option<string>) {
    s.Some? && Trim(s.value) != []
  }

  /** The constructor, and the builder, which runs the same checks (`null` is `None`): the host and
      the database name are trimmed and must not end up empty, the port lies in 1..65535, and
      user name and password must be present. */
  function NewConnectionInfo(host: Option<string>, port: int, databaseName: Option<string>,
                             username: Option<string>, password: Option<string>): (r: Result<ConnectionInfo, ConnectionError>)
    ensures r.Ok? <==> Filled(host) && MinPort <= port <= MaxPort && Filled(databaseName)
                       && username.Some? && password.Some?
    ensures r == Err(BlankHost) <==> !Filled(host)
    ensures r == Err(PortOutOfRange) <==> Filled(host) && !(MinPort <= port <= MaxPort)
    ensures r == Err(BlankDatabaseName) <==> Filled(host) && MinPort <= port <= MaxPort && !Filled(databaseName)
    ensures r.Ok? ==>
      (Valid(r.value)
       && r.value.host == Trim(host.value) && r.value.databaseName == Trim(databaseName.value)
       && r.value.port == port && r.value.username == username.value && r.value.password == password.value)
  {
    if !Filled(host) then Err(BlankHost)
    else if !(MinPort <= port <= MaxPort) then Err(PortOutOfRange)
    else if !Filled(databaseName) then Err(BlankDatabaseName)
    else if username.None? then Err(NullUsername)
    else if password.None? then Err(NullPassword)
    else
      TrimIdempotent(host.value);
      TrimIdempotent(databaseName.value);
      Ok(ConnectionInfo(Trim(host.value), port, Trim(databaseName.value), username.value, password.value))
  }

  /** What every built value satisfies. */
  predicate Valid(info: ConnectionInfo) {
    info.host != [] && Trim(info.host) == info.host
    && info.databaseName != [] && Trim(info.databaseName) == info.databaseName
    && MinPort <= info.port <= MaxPort
  }

  lemma TrimStartKeeps(s: string)
    requires |s| == 0 || !TrimmedAway(s[0])
    ensures TrimStart(s) == s
  {
  }

  lemma TrimEndKeeps(s: string)
    requires |s| == 0 || !TrimmedAway(s[|s| - 1])
    ensures TrimEnd(s) == s
  {
  }

  /** Trimming twice trims no more than once. */
  lemma TrimIdempotent(s: string)
    ensures Trim(Trim(s)) == Trim(s)
  {
    var r := Trim(s);
    TrimStartKeeps(r);
    TrimEndKeeps(r);
  }

  /** Rebuilding a value from its own fields gives it back: the checks accept every built value
      and trimming changes nothing more. */
  lemma RebuildIdentity(info: ConnectionInfo)
    requires Valid(info)
    ensures NewConnectionInfo(Some(info.host), info.port, Some(info.databaseName),
                              Some(info.username), Some(info.password)) == Ok(info)
  {
  }

  // ---------------------------------------------------------------------------
  // The JDBC URL
  // ---------------------------------------------------------------------------

  const UrlPrefix: string := "jdbc:cubrid:"
  const UrlSuffix: string := ":::"

  /** `getJdbcUrl`: `jdbc:cubrid:<host>:<port>:<databaseName>:::`, the port in decimal. */
  function JdbcUrl(info: ConnectionInfo): (url: string)
    ensures |url| >= |UrlPrefix| + |UrlSuffix|
    ensures url[..|UrlPrefix|] == UrlPrefix && url[|url| - |UrlSuffix|..] == UrlSuffix
  {
    UrlPrefix + info.host + ":" + IntToString(info.port) + ":" + info.databaseName + UrlSuffix
  }

  /** The text before and after the first `c` in `s`, if there is one. */
  function SplitFirst(s: string, c: char): (r: Option<(string, string)>)
    ensures r.None? <==> c !in s
    ensures r.Some? ==> s == r.value.0 + [c] + r.value.1 && c !in r.value.0
    decreases |s|
  {
    if |s| == 0 then None
    else if s[0] == c then Some(([], s[1..]))
    else match SplitFirst(s[1..], c)
      case None => None
      case Some(p) => Some(([s[0]] + p.0, p.1))
  }

  /** The first `c` of `a + [c] + b` is the one after `a` when `a` has none. */
  lemma {:induction false} SplitFirstAt(a: string, c: char, b: string)
    requires c !in a
    ensures SplitFirst(a + [c] + b, c) == Some((a, b))
    decreases |a|
  {
    var s := a + [c] + b;
    if |a| == 0 {
      assert s[1..] == b;
    } else {
      assert s[0] == a[0] && s[1..] == a[1..] + [c] + b;
      SplitFirstAt(a[1..], c, b);
      assert [a[0]] + a[1..] == a;
    }
  }

  /** Reads host, port and database name back out of a URL of the form `getJdbcUrl` writes. The
      host runs to the first colon after the prefix and the port to the next one, so the database
      name may itself hold colons. */
  function ParseUrl(url: string): (r: Option<(string, nat, string)>)
    ensures r.Some? ==> ':' !in r.value.0
  {
    if |url| < |UrlPrefix| + |UrlSuffix| || url[..|UrlPrefix|] != UrlPrefix
       || url[|url| - |UrlSuffix|..] != UrlSuffix then None
    else
      var body := url[|UrlPrefix|..|url| - |UrlSuffix|];
      match SplitFirst(body, ':')
      case None => None
      case Some(hostRest) =>
        match SplitFirst(hostRest.1, ':')
        case None => None
        case Some(portRest) =>
          if portRest.0 != [] && AllDigits(portRest.0) then Some((hostRest.0, DigitsValue(portRest.0), portRest.1))
          else None
  }

  /** A decimal rendering has no colon. */
  lemma DigitsHaveNoColon(s: string)
    requires AllDigits(s)
    ensures ':' !in s
  {
  }

  /** The body `host:digits:databaseName` splits back at its first two colons. */
  lemma BodySplits(host: string, digits: string, databaseName: string)
    requires ':' !in host && AllDigits(digits)
    ensures SplitFirst(host + ":" + digits + ":" + databaseName, ':') == Some((host, digits + ":" + databaseName))
    ensures SplitFirst(digits + ":" + databaseName, ':') == Some((digits, databaseName))
  {
    assert host + ":" + digits + ":" + databaseName == host + [':'] + (digits + ":" + databaseName);
    SplitFirstAt(host, ':', digits + ":" + databaseName);
    DigitsHaveNoColon(digits);
    SplitFirstAt(digits, ':', databaseName);
  }

  /** The URL gives back the host, port and database name it was built from, whenever the host
      has no colon; a built value's port is positive. */
  lemma UrlRoundTrip(info: ConnectionInfo)
    requires Valid(info) && ':' !in info.host
    ensures ParseUrl(JdbcUrl(info)) == Some((info.host, info.port, info.databaseName))
  {
    var digits := NatToString(info.port);
    var body := info.host + ":" + digits + ":" + info.databaseName;
    UrlBody(info, body);
    BodySplits(info.host, digits, info.databaseName);
    NatToStringRoundTrip(info.port);
  }

  /** Between the fixed prefix and suffix of the URL lies `host:port:databaseName`. */
  lemma UrlBody(info: ConnectionInfo, body: string)
    requires info.port >= 0 && body == info.host + ":" + NatToString(info.port) + ":" + info.databaseName
    ensures var url := JdbcUrl(info); url[|UrlPrefix|..|url| - |UrlSuffix|] == body
  {
    var url := JdbcUrl(info);
    assert url == UrlPrefix + body + UrlSuffix;
  }

  /** Two values with colon-free hosts and the same URL name the same host, port and database. */
  lemma UrlIdentifiesDatabase(a: ConnectionInfo, b: ConnectionInfo)
    requires Valid(a) && Valid(b) && ':' !in a.host && ':' !in b.host
    requires JdbcUrl(a) == JdbcUrl(b)
    ensures a.host == b.host && a.port == b.port && a.databaseName == b.databaseName
  {
    UrlRoundTrip(a);
    UrlRoundTrip(b);
  }

  // ---------------------------------------------------------------------------
  // Equality and hashing
  // ---------------------------------------------------------------------------

  /** `equals`: port, host, database name and user name agree; the password is not compared. */
  predicate SameConnection(a: ConnectionInfo, b: ConnectionInfo) {
    a.port == b.port && a.host == b.host && a.databaseName == b.databaseName && a.username == b.username
  }

  /** The fields `hashCode` combines. */
  function HashFields(a: ConnectionInfo): (string, int, string, string) {
    (a.host, a.port, a.databaseName, a.username)
  }

  /** `equals` and `hashCode` agree: equal values hash the same, and values with the same hashed
      fields are equal. A changed password changes neither. */
  lemma EqualsMatchesHash(a: ConnectionInfo, b: ConnectionInfo, p: string)
    ensures SameConnection(a, b) <==> HashFields(a) == HashFields(b)
    ensures SameConnection(a, a.(password := p)) && HashFields(a.(password := p)) == HashFields(a)
  {
  }

  /** `equals` is an equivalence. */
  lemma SameConnectionEquivalence(a: ConnectionInfo, b: ConnectionInfo, c: ConnectionInfo)
    ensures SameConnection(a, a)
    ensures SameConnection(a, b) ==> SameConnection(b, a)
    ensures SameConnection(a, b) && SameConnection(b, c) ==> SameConnection(a, c)
  {
  }
}
