/** The servers of the RADIUS view, told from the lines: what a server line names, and which
    line decides when an address occurs again. */
module RadiusServers {
  import opened Text
  import opened Sections
  import opened KeyLines
  import opened Radius
  import opened SettingsMeaning

  predicate AllSpace(s: string) {
    forall c :: c in s ==> IsSpace(c)
  }

  /** `word`, blanks, an equals sign and the rest. */
  ghost predicate AfterEquals(s: string, word: string, rest: string) {
    exists blanks :: AllSpace(blanks) && s == word + blanks + ['='] + rest
  }

  lemma SpaceThen(t: string, blanks: string, rest: string)
    requires t == blanks + rest && AllSpace(blanks) && (rest != "" ==> !IsSpace(rest[0]))
    ensures LStrip(t) == rest
  {
    assert forall i :: 0 <= i < |blanks| ==> t[i] == blanks[i] && blanks[i] in blanks;
    assert rest != "" ==> t[|blanks|] == rest[0];
    assert FirstVisible(t, 0) == |blanks|;
  }

  lemma LStripMeaning(t: string)
    ensures exists blanks :: AllSpace(blanks) && t == blanks + LStrip(t)
    ensures LStrip(t) != "" ==> !IsSpace(LStrip(t)[0])
  {
    var n := FirstVisible(t, 0);
    assert t == t[..n] + t[n..];
    assert AllSpace(t[..n]);
  }

  lemma AfterWordIff(s: string, word: string, rest: string)
    ensures AfterWord(s, word) == Some(rest) <==> AfterEquals(s, word, rest)
  {
    hide LStrip;
    if word <= s {
      var t := s[|word|..];
      LStripMeaning(t);
      var blanks :| AllSpace(blanks) && t == blanks + LStrip(t);
      var l := LStrip(t);
      assert s == word + t;
      if l != "" && l[0] == '=' {
        assert l == ['='] + l[1..];
        assert s == word + blanks + ['='] + l[1..];
      }
    }
    if AfterEquals(s, word, rest) {
      var blanks :| AllSpace(blanks) && s == word + blanks + ['='] + rest;
      assert s[|word|..] == blanks + (['='] + rest);
      SpaceThen(s[|word|..], blanks, ['='] + rest);
      assert word <= s;
    }
  }

  /** The word of a server line: it is told by its first letters. */
  ghost predicate ServerRest(line: string, rest: string) {
    AfterEquals(line, "server", rest) || AfterEquals(line, "auth-server", rest) || AfterEquals(line, "acct-server", rest)
  }

  /** A text without commas and blanks, up to the next of these. */
  ghost predicate AddressOf(t: string, a: string) {
    a != "" && (forall c :: c in a ==> c != ',' && !IsSpace(c))
    && exists more :: t == a + more && (more != "" ==> more[0] == ',' || IsSpace(more[0]))
  }

  /** The line names a server: one of three keys, an equals sign and an address. */
  ghost predicate NamesServer(line: string, a: string) {
    exists rest, blanks, t :: ServerRest(line, rest) && AllSpace(blanks) && rest == blanks + t && AddressOf(t, a)
  }

  lemma {:induction false} AddressEndMeaning(s: string, from: nat)
    requires from <= |s|
    ensures var n := AddressEnd(s, from);
            && (forall i :: from <= i < n ==> s[i] != ',' && !IsSpace(s[i]))
            && (n < |s| ==> s[n] == ',' || IsSpace(s[n]))
    decreases |s| - from
  {
    if from < |s| && s[from] != ',' && !IsSpace(s[from]) {
      AddressEndMeaning(s, from + 1);
    }
  }

  lemma AddressOfIff(t: string, a: string)
    ensures AddressOf(t, a) <==> AddressEnd(t, 0) > 0 && a == t[..AddressEnd(t, 0)]
  {
    hide AddressEnd;
    var n := AddressEnd(t, 0);
    AddressEndMeaning(t, 0);
    assert t == t[..n] + t[n..];
    if AddressOf(t, a) {
      AddressEnds(t, a);
      assert a == t[..|a|];
    }
  }

  lemma AddressEnds(t: string, a: string)
    requires AddressOf(t, a)
    ensures a <= t && (forall i :: 0 <= i < |a| ==> t[i] != ',' && !IsSpace(t[i])) && (|a| < |t| ==> t[|a|] == ',' || IsSpace(t[|a|]))
  {
    var more :| t == a + more && (more != "" ==> more[0] == ',' || IsSpace(more[0]));
    assert forall i :: 0 <= i < |a| ==> t[i] == a[i] && a[i] in a;
  }

  lemma FrontOf(line: string, word: string, rest: string)
    ensures AfterEquals(line, word, rest) ==> |word| <= |line| && forall i :: 0 <= i < |word| ==> line[i] == word[i]
  {
  }

  lemma ServerWords(line: string, r: string, s: string)
    ensures AfterEquals(line, "server", r) ==> !AfterEquals(line, "auth-server", s) && !AfterEquals(line, "acct-server", s)
    ensures AfterEquals(line, "auth-server", r) ==> !AfterEquals(line, "acct-server", s)
  {
    FrontOf(line, "server", r);
    FrontOf(line, "auth-server", r);
    FrontOf(line, "auth-server", s);
    FrontOf(line, "acct-server", s);
    hide AfterEquals;
    assert "server"[0] == 's' && "auth-server"[0] == 'a' && "acct-server"[0] == 'a';
    assert "auth-server"[1] == 'u' && "acct-server"[1] == 'c';
  }

  /** The address a line gives, as the parser finds it. */
  lemma AddressIs(line: string)
    ensures Address(line).Some? ==> NamesServer(line, Address(line).value)
    ensures forall a :: NamesServer(line, a) ==> Address(line) == Some(a)
  {
    hide AfterWord, LStrip, AddressEnd, AfterEquals, AddressOf, AllSpace;
    forall r
      ensures AfterWord(line, "server") == Some(r) <==> AfterEquals(line, "server", r)
      ensures AfterWord(line, "auth-server") == Some(r) <==> AfterEquals(line, "auth-server", r)
      ensures AfterWord(line, "acct-server") == Some(r) <==> AfterEquals(line, "acct-server", r)
    {
      AfterWordIff(line, "server", r);
      AfterWordIff(line, "auth-server", r);
      AfterWordIff(line, "acct-server", r);
    }
    var rest :=
      if AfterWord(line, "server").Some? then AfterWord(line, "server")
      else if AfterWord(line, "auth-server").Some? then AfterWord(line, "auth-server")
      else AfterWord(line, "acct-server");
    forall r, s
      ensures AfterEquals(line, "server", r) ==> !AfterEquals(line, "auth-server", s) && !AfterEquals(line, "acct-server", s)
      ensures AfterEquals(line, "auth-server", r) ==> !AfterEquals(line, "acct-server", s)
    {
      ServerWords(line, r, s);
    }
    assert forall r :: ServerRest(line, r) <==> rest == Some(r);
    if rest.Some? {
      LStripMeaning(rest.value);
      AddressOfIff(LStrip(rest.value), LStrip(rest.value)[..AddressEnd(LStrip(rest.value), 0)]);
    }
    forall a | NamesServer(line, a)
      ensures Address(line) == Some(a)
    {
      var r, blanks, t :| ServerRest(line, r) && AllSpace(blanks) && r == blanks + t && AddressOf(t, a);
      AddressVisible(t, a);
      SpaceThen(r, blanks, t);
      AddressOfIff(t, a);
    }
  }

  lemma AddressVisible(t: string, a: string)
    requires AddressOf(t, a)
    ensures t != "" && !IsSpace(t[0])
  {
    assert a[0] in a;
  }

  // ---------------------------------------------------------------------------
  // Ports
  // ---------------------------------------------------------------------------

  /** `word = number` starts at position `i` of the line, wherever that is. */
  ghost predicate PortAt(line: string, i: int, word: string, n: nat) {
    0 <= i <= |line|
    && exists rest, blanks, t :: AfterEquals(line[i..], word, rest) && AllSpace(blanks) && rest == blanks + t && StartsWith(t, n)
  }

  /** The number at the first such position, or the default. */
  ghost predicate PortIs(line: string, word: string, default: nat, n: nat) {
    || (exists i :: PortAt(line, i, word, n) && forall j, m :: j < i ==> !PortAt(line, j, word, m))
    || (n == default && forall j, m :: !PortAt(line, j, word, m))
  }

  function Here(s: string, word: string): Option<nat> {
    match AfterWord(s, word)
    case None => None
    case Some(r) => LeadingNat(LStrip(r))
  }

  lemma PortAtIff(line: string, i: nat, word: string, n: nat)
    requires i <= |line|
    ensures PortAt(line, i, word, n) <==> Here(line[i..], word) == Some(n)
  {
    hide AfterWord, LStrip, LeadingNat, AfterEquals, AllSpace, StartsWith;
    var s := line[i..];
    if AfterWord(s, word).Some? {
      var r := AfterWord(s, word).value;
      AfterWordIff(s, word, r);
      LStripMeaning(r);
      StartsWithMeaning(LStrip(r), n);
    }
    if PortAt(line, i, word, n) {
      var r, blanks, t :| AfterEquals(s, word, r) && AllSpace(blanks) && r == blanks + t && StartsWith(t, n);
      AfterWordIff(s, word, r);
      StartsVisible(t, n);
      SpaceThen(r, blanks, t);
      StartsWithMeaning(t, n);
    }
  }

  lemma StartsVisible(t: string, n: nat)
    requires StartsWith(t, n)
    ensures t != "" && !IsSpace(t[0])
  {
    hide ParseNat;
    var d, rest :| t == d + rest && d != "" && AllDigits(d) && (rest != "" ==> !IsDigit(rest[0])) && n == ParseNat(d);
    assert t[0] == d[0] && IsDigit(d[0]);
  }

  lemma {:induction false} SearchFrom(line: string, i: nat, word: string)
    requires i <= |line|
    ensures var r := Search(line[i..], word);
            if r.None? then forall j, m :: i <= j ==> !PortAt(line, j, word, m)
            else exists k :: i <= k && PortAt(line, k, word, r.value) && forall j, m :: i <= j < k ==> !PortAt(line, j, word, m)
    decreases |line| - i
  {
    hide AfterWord, LeadingNat, LStrip, PortAt;
    var s := line[i..];
    forall m: nat
      ensures PortAt(line, i, word, m) <==> Here(s, word) == Some(m)
    {
      PortAtIff(line, i, word, m);
    }
    forall j, m | j > |line|
      ensures !PortAt(line, j, word, m)
    {
      PortInside(line, j, word, m);
    }
    if Here(s, word).None? {
      if i < |line| {
        assert s[1..] == line[i + 1..];
        SearchFrom(line, i + 1, word);
      } else {
        assert s == "";
      }
    }
  }

  lemma PortInside(line: string, j: int, word: string, m: nat)
    ensures PortAt(line, j, word, m) ==> 0 <= j <= |line|
  {
    hide AfterEquals, StartsWith;
  }

  lemma SearchMeaning(line: string, word: string, default: nat)
    ensures var r := Search(line, word);
            PortIs(line, word, default, if r.Some? then r.value else default)
  {
    hide Search, PortAt;
    assert line[0..] == line;
    SearchFrom(line, 0, word);
    forall j, m | j < 0
      ensures !PortAt(line, j, word, m)
    {
      PortInside(line, j, word, m);
    }
  }

  /** What the line says of the server: its ports, 1812 and 1813 unless others are given. */
  ghost predicate PortsOf(line: string, s: Server) {
    PortIs(line, "auth-port", 1812, s.authPort) && PortIs(line, "acct-port", 1813, s.acctPort)
  }

  lemma ServerMeaning(line: string)
    ensures ParseServer(line).Some? ==>
              NamesServer(line, ParseServer(line).value.address) && PortsOf(line, ParseServer(line).value)
    ensures forall a :: NamesServer(line, a) ==> ParseServer(line).Some? && ParseServer(line).value.address == a
  {
    hide Address, Search, NamesServer, PortIs;
    AddressIs(line);
    SearchMeaning(line, "auth-port", 1812);
    SearchMeaning(line, "acct-port", 1813);
  }

  // ---------------------------------------------------------------------------
  // The list
  // ---------------------------------------------------------------------------

  /** Line `i` of a `[radius]` section, unless it is a comment, names the server. */
  ghost predicate GivesServer(lines: seq<string>, i: int, a: string) {
    Within(lines, i, {"[radius]"}) && (Strip(lines[i]) != "" ==> Strip(lines[i])[0] != '#') && NamesServer(Strip(lines[i]), a)
  }

  ghost predicate FirstServer(lines: seq<string>, i: int, a: string) {
    GivesServer(lines, i, a) && forall j :: j < i ==> !GivesServer(lines, j, a)
  }

  /** The server is what the first line that names its address says. */
  ghost predicate Source(lines: seq<string>, i: int, s: Server) {
    FirstServer(lines, i, s.address) && PortsOf(Strip(lines[i]), s)
  }

  /** One address is named before another. */
  ghost predicate Before(lines: seq<string>, a: string, b: string) {
    exists i, j :: FirstServer(lines, i, a) && FirstServer(lines, j, b) && i < j
  }

  /** Of the lines before `k`: the servers named, each once, in the order of the first lines
      that name them, with the ports of those lines. */
  ghost predicate Listed(lines: seq<string>, k: int, servers: seq<Server>) {
    && (forall s :: s in servers ==> exists i :: i < k && Source(lines, i, s))
    && (forall i, a :: i < k && GivesServer(lines, i, a) ==> Known(servers, a))
    && (forall p, q :: 0 <= p < q < |servers| ==> Before(lines, servers[p].address, servers[q].address))
  }

  lemma LineServer(lines: seq<string>, k: nat)
    requires k < |lines| && Within(lines, k, {"[radius]"})
    ensures var line := Strip(lines[k]);
            var server := if Setting(line) then ParseServer(line) else None;
            && (server.Some? ==> GivesServer(lines, k, server.value.address) && PortsOf(line, server.value))
            && forall a :: GivesServer(lines, k, a) ==> server.Some? && server.value.address == a
  {
    hide ParseServer, NamesServer, PortIs, Strip, Within;
    var line := Strip(lines[k]);
    ServerMeaning(line);
    forall a | NamesServer(line, a)
      ensures HasEq(line)
    {
      NamedHasEq(line, a);
    }
  }

  lemma NamedHasEq(line: string, a: string)
    requires NamesServer(line, a)
    ensures HasEq(line)
  {
    hide AddressOf;
    var rest, blanks, t :| ServerRest(line, rest) && AllSpace(blanks) && rest == blanks + t && AddressOf(t, a);
    EqualsIn(line, "server", rest);
    EqualsIn(line, "auth-server", rest);
    EqualsIn(line, "acct-server", rest);
  }

  lemma EqualsIn(line: string, word: string, rest: string)
    ensures AfterEquals(line, word, rest) ==> HasEq(line)
  {
    if AfterEquals(line, word, rest) {
      var blanks :| AllSpace(blanks) && line == word + blanks + ['='] + rest;
      assert line[|word + blanks|] == '=';
    }
  }

  lemma GivenWithin(lines: seq<string>, i: int, a: string)
    requires GivesServer(lines, i, a)
    ensures Within(lines, i, {"[radius]"}) && 0 <= i < |lines|
  {
    hide NamesServer;
  }

  lemma SameListed(lines: seq<string>, k: int, servers: seq<Server>)
    requires Listed(lines, k, servers) && forall a :: GivesServer(lines, k, a) ==> Known(servers, a)
    ensures Listed(lines, k + 1, servers)
  {
    hide GivesServer, Source, Before, Known;
    forall s | s in servers
      ensures exists i :: i < k + 1 && Source(lines, i, s)
    {
      var i :| i < k && Source(lines, i, s);
      assert i < k + 1;
    }
  }

  lemma OneMoreListed(lines: seq<string>, k: int, servers: seq<Server>, s: Server)
    requires Listed(lines, k, servers) && !Known(servers, s.address)
    requires GivesServer(lines, k, s.address) && PortsOf(Strip(lines[k]), s)
    requires forall a :: GivesServer(lines, k, a) ==> a == s.address
    ensures Listed(lines, k + 1, servers + [s])
  {
    hide GivesServer, PortsOf, Known, Before, Source;
    KnownAppend(servers, s);
    NewSource(lines, k, servers, s);
    var more := servers + [s];
    forall x | x in more
      ensures exists i :: i < k + 1 && Source(lines, i, x)
    {
      if x in servers {
        var i :| i < k && Source(lines, i, x);
        assert i < k + 1;
      } else {
        assert k < k + 1;
      }
    }
    forall p, q | 0 <= p < q < |more|
      ensures Before(lines, more[p].address, more[q].address)
    {
      if q == |servers| {
        assert servers[p] in servers;
        var i :| i < k && Source(lines, i, servers[p]);
        Earlier(lines, i, k, servers[p], s);
      }
    }
  }

  lemma NewSource(lines: seq<string>, k: int, servers: seq<Server>, s: Server)
    requires Listed(lines, k, servers) && !Known(servers, s.address)
    requires GivesServer(lines, k, s.address) && PortsOf(Strip(lines[k]), s)
    ensures Source(lines, k, s)
  {
    hide GivesServer, PortsOf, Known, Before;
  }

  lemma Earlier(lines: seq<string>, i: int, j: int, s: Server, r: Server)
    requires Source(lines, i, s) && Source(lines, j, r) && i < j
    ensures Before(lines, s.address, r.address)
  {
    hide FirstServer, PortsOf;
  }

  lemma BeforeIsOther(lines: seq<string>, a: string, b: string)
    requires Before(lines, a, b)
    ensures a != b
  {
    hide GivesServer;
  }

  lemma {:induction false} ServersFrom(lines: seq<string>, k: nat, found: seq<Server>)
    requires k <= |lines| && Listed(lines, k, found)
    ensures Listed(lines, |lines|, Servers(Picked(lines, {"[radius]"}, k), found))
    decreases |lines| - k
  {
    hide Listed, GivesServer, PortsOf, Known, Source, Before, ParseServer, Setting, Strip, Within;
    if k < |lines| {
      var names := {"[radius]"};
      var line, rest := Strip(lines[k]), Picked(lines, names, k + 1);
      assert [] + rest == rest && ([line] + rest)[0] == line && ([line] + rest)[1..] == rest;
      if Within(lines, k, names) {
        var server := if Setting(line) then ParseServer(line) else None;
        LineServer(lines, k);
        if server.Some? && !Known(found, server.value.address) {
          OneMoreListed(lines, k, found, server.value);
          ServersFrom(lines, k + 1, found + [server.value]);
        } else {
          SameListed(lines, k, found);
          ServersFrom(lines, k + 1, found);
        }
      } else {
        forall a
          ensures !GivesServer(lines, k, a)
        {
          if GivesServer(lines, k, a) {
            GivenWithin(lines, k, a);
          }
        }
        SameListed(lines, k, found);
        ServersFrom(lines, k + 1, found);
      }
    }
  }

  lemma NoneListed(lines: seq<string>)
    ensures Listed(lines, 0, [])
  {
    forall i, a | i < 0
      ensures !GivesServer(lines, i, a)
    {
      if GivesServer(lines, i, a) {
        GivenWithin(lines, i, a);
      }
    }
  }

  /** The RADIUS view lists every server a line of the `[radius]` sections names, each once,
      in the order of the lines that name them first and with the ports of those lines. */
  lemma ServersMeaning(lines: seq<string>)
    ensures Listed(lines, |lines|, ReadRadius(lines).servers)
    ensures var s := ReadRadius(lines).servers; forall p, q :: 0 <= p < q < |s| ==> s[p].address != s[q].address
  {
    hide Servers, Body, Before, Source, Known, GivesServer, TextIn, WholeIn, Picked;
    NoneListed(lines);
    BodyMeaning(lines, {"[radius]"});
    ServersFrom(lines, 0, []);
    var s := ReadRadius(lines).servers;
    forall p, q | 0 <= p < q < |s|
      ensures s[p].address != s[q].address
    {
      BeforeIsOther(lines, s[p].address, s[q].address);
    }
  }
}
