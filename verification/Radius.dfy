/** The RADIUS view of the configuration: a reader of the `[radius]` section only. */
module Radius {
  import opened Text
  import opened Patterns
  import opened Sections
  import opened KeyLines

  datatype Server = Server(address: string, authPort: nat, acctPort: nat)

  datatype Config = Config(
    nasIdentifier: string, nasIpAddress: string, gwIpAddress: string,
    servers: seq<Server>, timeout: nat, maxTry: nat, acctTimeout: nat)

  const RADIUS := "[radius]"

  /** `word\s*=` at the start of `s`, case and all: what follows. */
  function AfterWord(s: string, word: string): Option<string> {
    if word <= s then
      var rest := LStrip(s[|word|..]);
      if rest != "" && rest[0] == '=' then Some(rest[1..]) else None
    else None
  }

  /** End of the run of characters other than commas and blanks. */
  function AddressEnd(s: string, from: nat): (n: nat)
    requires from <= |s|
    ensures from <= n <= |s|
    decreases |s| - from
  {
    if from < |s| && s[from] != ',' && !IsSpace(s[from]) then AddressEnd(s, from + 1) else from
  }

  /** The address of a `server=`, `auth-server=` or `acct-server=` line. */
  function Address(line: string): Option<string> {
    var rest :=
      if AfterWord(line, "server").Some? then AfterWord(line, "server")
      else if AfterWord(line, "auth-server").Some? then AfterWord(line, "auth-server")
      else AfterWord(line, "acct-server");
    match rest
    case None => None
    case Some(r) =>
      var a := LStrip(r);
      var n := AddressEnd(a, 0);
      if n == 0 then None else Some(a[..n])
  }

  /** The first match of `word\s*=\s*(\d+)` anywhere in the line. */
  function Search(s: string, word: string): Option<nat> {
    var here := match AfterWord(s, word) case None => None case Some(r) => LeadingNat(LStrip(r));
    if here.Some? then here
    else if s == "" then None
    else Search(s[1..], word)
  }

  /** `_parse_server_line`; the shared secret is dropped. */
  function ParseServer(line: string): Option<Server> {
    match Address(line)
    case None => None
    case Some(address) =>
      var auth, acct := Search(line, "auth-port"), Search(line, "acct-port");
      Some(Server(address,
                  if auth.Some? then auth.value else 1812,
                  if acct.Some? then acct.value else 1813))
  }

  predicate Setting(line: string) {
    line != "" && line[0] != '#' && HasEq(line)
  }

  predicate Known(servers: seq<Server>, address: string) {
    exists s :: s in servers && s.address == address
  }

  /** The servers found so far and those of `body`, the first for each address. */
  function Servers(body: seq<string>, found: seq<Server>): seq<Server> {
    if body == [] then found
    else
      var server := if Setting(body[0]) then ParseServer(body[0]) else None;
      Servers(body[1..],
              if server.Some? && !Known(found, server.value.address) then found + [server.value] else found)
  }

  function ReadRadius(lines: seq<string>): Config {
    var body := Body(lines, {RADIUS}, false);
    Config(
      TextIn(body, "nas-identifier", ""), TextIn(body, "nas-ip-address", ""), TextIn(body, "gw-ip-address", ""),
      Servers(body, []),
      WholeIn(body, "timeout", 3, 3), WholeIn(body, "max-try", 3, 3), WholeIn(body, "acct-timeout", 0, 0))
  }

  lemma ServersStep(lines: seq<string>, i: nat, inside: bool, found: seq<Server>)
    requires i < |lines|
    ensures var raw := lines[i];
            var server := if inside && !IsHeader(raw) && Setting(Strip(raw)) then ParseServer(Strip(raw)) else None;
            Servers(Body(lines[i..], {RADIUS}, inside), found) ==
            Servers(Body(lines[i + 1..], {RADIUS}, Next(raw, {RADIUS}, inside)),
                    if server.Some? && !Known(found, server.value.address) then found + [server.value] else found)
  {
    hide IsHeader, Opens, Strip, Setting, ParseServer, Known;
    assert lines[i..][1..] == lines[i + 1..];
    var rest := Body(lines[i + 1..], {RADIUS}, Next(lines[i], {RADIUS}, inside));
    assert [] + rest == rest && ([Strip(lines[i])] + rest)[1..] == rest;
  }

  const KEYS := ["nas-identifier", "nas-ip-address", "gw-ip-address", "timeout", "max-try", "acct-timeout"]

  lemma RadiusKeys()
    ensures forall k :: k in KEYS ==> KeyName(k)
    ensures forall i, j :: 0 <= i < j < 6 ==> KEYS[i] != KEYS[j]
  {
    assert KEYS[0][4] == 'i' && KEYS[1][5] == 'p' && KEYS[0][5] == 'd';
  }

  lemma CommentsSetNothing(line: string)
    requires Trimmed(line)
    ensures !Setting(line) ==> forall k :: k in KEYS ==> !HasKey(line, k)
  {
    RadiusKeys();
    forall k | k in KEYS && !Setting(line)
      ensures !HasKey(line, k)
    {
      if line != "" && line[0] == '#' {
        CommentSetsNothing(line, k);
      }
    }
  }

  /** What one setting line with an equals sign changes, servers aside. */
  method ReadKey(line: string, result: Config) returns (next: Config)
    requires HasEq(line)
    ensures next.servers == result.servers
    ensures next.nasIdentifier == if HasKey(line, "nas-identifier") then ValueOf(line) else result.nasIdentifier
    ensures next.nasIpAddress == if HasKey(line, "nas-ip-address") then ValueOf(line) else result.nasIpAddress
    ensures next.gwIpAddress == if HasKey(line, "gw-ip-address") then ValueOf(line) else result.gwIpAddress
    ensures next.timeout == if HasKey(line, "timeout") then DigitsOr(ValueOf(line), 3) else result.timeout
    ensures next.maxTry == if HasKey(line, "max-try") then DigitsOr(ValueOf(line), 3) else result.maxTry
    ensures next.acctTimeout == if HasKey(line, "acct-timeout") then DigitsOr(ValueOf(line), 0) else result.acctTimeout
  {
    hide HasEq, KeyOf, ValueOf, DigitsOr;
    DifferentKeys();
    var key, val := KeyOf(line), ValueOf(line);
    next := result;
    if key == "nas-identifier" {
      next := next.(nasIdentifier := val);
    } else if key == "nas-ip-address" {
      next := next.(nasIpAddress := val);
    } else if key == "gw-ip-address" {
      next := next.(gwIpAddress := val);
    } else if key == "timeout" {
      next := next.(timeout := DigitsOr(val, 3));
    } else if key == "max-try" {
      next := next.(maxTry := DigitsOr(val, 3));
    } else if key == "acct-timeout" {
      next := next.(acctTimeout := DigitsOr(val, 0));
    }
  }

  /** `parse_radius_config` */
  method ParseRadius(lines: seq<string>) returns (result: Config)
    ensures result == ReadRadius(lines)
  {
    hide IsHeader, Strip, Body, TextIn, WholeIn, HasEq, KeyOf, ValueOf, DigitsOr, Servers, ParseServer, Setting, Known;
    result := Config("", "", "", [], 3, 3, 0);
    var inRadius := false;
    var seen: set<string> := {};
    NoServers([]);
    assert lines[0..] == lines;
    for i := 0 to |lines|
      invariant TextIn(Body(lines[i..], {RADIUS}, inRadius), "nas-identifier", result.nasIdentifier)
                == TextIn(Body(lines, {RADIUS}, false), "nas-identifier", "")
      invariant TextIn(Body(lines[i..], {RADIUS}, inRadius), "nas-ip-address", result.nasIpAddress)
                == TextIn(Body(lines, {RADIUS}, false), "nas-ip-address", "")
      invariant TextIn(Body(lines[i..], {RADIUS}, inRadius), "gw-ip-address", result.gwIpAddress)
                == TextIn(Body(lines, {RADIUS}, false), "gw-ip-address", "")
      invariant Servers(Body(lines[i..], {RADIUS}, inRadius), result.servers) == Servers(Body(lines, {RADIUS}, false), [])
      invariant WholeIn(Body(lines[i..], {RADIUS}, inRadius), "timeout", 3, result.timeout)
                == WholeIn(Body(lines, {RADIUS}, false), "timeout", 3, 3)
      invariant WholeIn(Body(lines[i..], {RADIUS}, inRadius), "max-try", 3, result.maxTry)
                == WholeIn(Body(lines, {RADIUS}, false), "max-try", 3, 3)
      invariant WholeIn(Body(lines[i..], {RADIUS}, inRadius), "acct-timeout", 0, result.acctTimeout)
                == WholeIn(Body(lines, {RADIUS}, false), "acct-timeout", 0, 0)
      invariant forall a :: a in seen <==> Known(result.servers, a)
    {
      var raw := lines[i];
      var stripped := Strip(raw);
      TextStep(lines, i, {RADIUS}, inRadius, "nas-identifier", result.nasIdentifier);
      TextStep(lines, i, {RADIUS}, inRadius, "nas-ip-address", result.nasIpAddress);
      TextStep(lines, i, {RADIUS}, inRadius, "gw-ip-address", result.gwIpAddress);
      WholeStep(lines, i, {RADIUS}, inRadius, "timeout", 3, result.timeout);
      WholeStep(lines, i, {RADIUS}, inRadius, "max-try", 3, result.maxTry);
      WholeStep(lines, i, {RADIUS}, inRadius, "acct-timeout", 0, result.acctTimeout);
      ServersStep(lines, i, inRadius, result.servers);
      if IsHeader(raw) {
        inRadius := Lower(stripped) == "[radius]";
      } else if !inRadius || !Setting(stripped) {
        ListedKeys();
        CommentsSetNothing(stripped);
      } else {
        SettingHasEq(stripped);
        result := ReadKey(stripped, result);
        var server := ParseServer(stripped);
        if server.Some? && server.value.address !in seen {
          KnownAppend(result.servers, server.value);
          seen := seen + {server.value.address};
          result := result.(servers := result.servers + [server.value]);
        }
      }
    }
    NothingLeft(lines, {RADIUS}, inRadius);
    NoServers(result.servers);
  }

  lemma NoServers(found: seq<Server>)
    ensures Servers([], found) == found && forall a :: !Known([], a)
  {
  }

  lemma SettingHasEq(line: string)
    requires Setting(line)
    ensures HasEq(line)
  {
  }

  lemma KnownAppend(servers: seq<Server>, s: Server)
    ensures forall a :: Known(servers + [s], a) <==> Known(servers, a) || a == s.address
  {
    forall a
      ensures Known(servers + [s], a) <==> Known(servers, a) || a == s.address
    {
      assert s in servers + [s];
      assert forall x :: x in servers ==> x in servers + [s];
    }
  }

  lemma ListedKeys()
    ensures "nas-identifier" in KEYS && "nas-ip-address" in KEYS && "gw-ip-address" in KEYS
    ensures "timeout" in KEYS && "max-try" in KEYS && "acct-timeout" in KEYS
  {
    assert KEYS[0] in KEYS && KEYS[1] in KEYS && KEYS[2] in KEYS && KEYS[3] in KEYS && KEYS[4] in KEYS && KEYS[5] in KEYS;
  }

  lemma DifferentKeys()
    ensures "nas-identifier" != "nas-ip-address" && "nas-identifier" != "gw-ip-address" && "nas-identifier" != "timeout"
    ensures "nas-identifier" != "max-try" && "nas-identifier" != "acct-timeout" && "nas-ip-address" != "gw-ip-address"
    ensures "nas-ip-address" != "timeout" && "nas-ip-address" != "max-try" && "nas-ip-address" != "acct-timeout"
    ensures "gw-ip-address" != "timeout" && "gw-ip-address" != "max-try" && "gw-ip-address" != "acct-timeout"
    ensures "timeout" != "max-try" && "timeout" != "acct-timeout" && "max-try" != "acct-timeout"
  {
    RadiusKeys();
    assert KEYS[0] == "nas-identifier" && KEYS[1] == "nas-ip-address" && KEYS[2] == "gw-ip-address";
    assert KEYS[3] == "timeout" && KEYS[4] == "max-try" && KEYS[5] == "acct-timeout";
  }
}
