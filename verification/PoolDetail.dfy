/** Per-pool utilisation: active sessions matched to the configured pools. */
module PoolDetail {
  import opened Text
  import opened Patterns
  import opened Ipv4
  import opened Powers
  import IpPool

  /** A row of `show sessions`; a missing column reads as the empty text. */
  datatype Session = Session(ip: string, username: string)

  datatype Assignment = Assignment(ip: string, username: string)

  datatype Detail = Detail(
    name: string, range: string, totalIps: nat, used: nat, available: nat, utilization: real, assignments: seq<Assignment>)

  datatype Report = Report(pools: seq<Detail>, totalPools: nat, totalUsed: nat, totalCapacity: nat)

  // ---------------------------------------------------------------------------
  // Which pool a session belongs to
  // ---------------------------------------------------------------------------

  /** The IPv4 address of a session, if it has one. */
  function AddressOf(s: Session): Option<nat> {
    if Strip(s.ip) == "" then None else ParseAddress(Strip(s.ip))
  }

  predicate Holds(p: Pool, x: nat) {
    ParseNetwork(p.range).Some? && In(x, ParseNetwork(p.range).value)
  }

  /** The first pool in file order that holds the address. */
  function FirstHolding(pools: seq<Pool>, x: nat): (r: Option<nat>)
    ensures r.Some? ==> r.value < |pools| && Holds(pools[r.value], x)
    ensures r.Some? ==> forall i :: 0 <= i < r.value ==> !Holds(pools[i], x)
    ensures r.None? ==> forall i :: 0 <= i < |pools| ==> !Holds(pools[i], x)
    decreases |pools|
  {
    hide Holds;
    if pools == [] then None
    else if Holds(pools[0], x) then Some(0)
    else
      match FirstHolding(pools[1..], x)
      case None => None
      case Some(i) => Some(i + 1)
  }

  function PoolOf(pools: seq<Pool>, s: Session): (r: Option<nat>)
    ensures r.Some? ==> r.value < |pools|
  {
    match AddressOf(s)
    case None => None
    case Some(x) => FirstHolding(pools, x)
  }

  /** The session is assigned under this pool name. */
  predicate Goes(pools: seq<Pool>, s: Session, name: string) {
    PoolOf(pools, s).Some? && pools[PoolOf(pools, s).value].name == name
  }

  function Assigned(pools: seq<Pool>, sessions: seq<Session>, name: string): (r: seq<Assignment>)
  {
    if sessions == [] then []
    else
      (if Goes(pools, sessions[0], name) then [Assignment(Strip(sessions[0].ip), sessions[0].username)] else [])
      + Assigned(pools, sessions[1..], name)
  }

  function SumUsed(some: seq<Pool>, pools: seq<Pool>, sessions: seq<Session>): nat {
    if some == [] then 0 else |Assigned(pools, sessions, some[0].name)| + SumUsed(some[1..], pools, sessions)
  }

  function Capacity(pools: seq<Pool>): nat {
    if pools == [] then 0 else HostCount(pools[0].range) + Capacity(pools[1..])
  }

  /** The share in use, in percent, before it is rounded. */
  function Utilization(used: nat, total: nat): real {
    if total > 0 then used as real / total as real * 100.0 else 0.0
  }

  function DetailOf(pools: seq<Pool>, sessions: seq<Session>, p: Pool): Detail {
    var total, taken := HostCount(p.range), Assigned(pools, sessions, p.name);
    Detail(p.name, p.range, total, |taken|, if total > |taken| then total - |taken| else 0,
           Utilization(|taken|, total), taken)
  }

  // ---------------------------------------------------------------------------
  // The report
  // ---------------------------------------------------------------------------

  /** The inner loop: the first pool whose network holds the address. */
  method MatchPool(pools: seq<Pool>, nets: seq<Option<Network>>, x: nat) returns (r: Option<nat>)
    requires |nets| == |pools| && forall i :: 0 <= i < |pools| ==> nets[i] == ParseNetwork(pools[i].range)
    ensures r == FirstHolding(pools, x)
  {
    hide ParseNetwork, In;
    for i := 0 to |pools|
      invariant forall k :: 0 <= k < i ==> !Holds(pools[k], x)
    {
      if nets[i].Some? && In(x, nets[i].value) {
        return Some(i);
      }
    }
    return None;
  }

  /** The network of each pool, if its range is one. */
  method PoolNetworks(pools: seq<Pool>) returns (nets: seq<Option<Network>>)
    ensures |nets| == |pools| && forall i :: 0 <= i < |pools| ==> nets[i] == ParseNetwork(pools[i].range)
  {
    hide ParseNetwork;
    nets := [];
    for i := 0 to |pools|
      invariant |nets| == i && forall k :: 0 <= k < i ==> nets[k] == ParseNetwork(pools[k].range)
    {
      nets := nets + [ParseNetwork(pools[i].range)];
    }
  }

  lemma AssignedStep(pools: seq<Pool>, sessions: seq<Session>, i: nat, name: string)
    requires i < |sessions|
    ensures Assigned(pools, sessions[i..], name) ==
            Gain(pools, sessions[i], name) + Assigned(pools, sessions[i + 1..], name)
  {
    hide Goes, Strip;
    assert sessions[i..][1..] == sessions[i + 1..];
  }

  function Gain(pools: seq<Pool>, s: Session, name: string): seq<Assignment> {
    if Goes(pools, s, name) then [Assignment(Strip(s.ip), s.username)] else []
  }

  /** One pass of the loop over the sessions. */
  method AssignOne(pools: seq<Pool>, nets: seq<Option<Network>>, s: Session, assignments: map<string, seq<Assignment>>)
    returns (next: map<string, seq<Assignment>>)
    requires |nets| == |pools| && forall i :: 0 <= i < |pools| ==> nets[i] == ParseNetwork(pools[i].range)
    requires forall p :: p in pools ==> p.name in assignments
    ensures next.Keys == assignments.Keys
    ensures forall name :: name in assignments ==> next[name] == assignments[name] + Gain(pools, s, name)
  {
    hide Strip, ParseAddress, ParseNetwork;
    var ip := Strip(s.ip);
    var address := if ip == "" then None else ParseAddress(ip);
    next := assignments;
    if address.Some? {
      var k := MatchPool(pools, nets, address.value);
      if k.Some? {
        var name := pools[k.value].name;
        assert pools[k.value] in pools;
        next := next[name := next[name] + [Assignment(ip, s.username)]];
      }
    }
  }

  /** The loop over the sessions: assignments by pool name. */
  method AssignSessions(pools: seq<Pool>, sessions: seq<Session>) returns (assignments: map<string, seq<Assignment>>)
    ensures forall p :: p in pools ==> p.name in assignments
    ensures forall name :: name in assignments ==> assignments[name] == Assigned(pools, sessions, name)
  {
    hide ParseNetwork, Assigned, Gain;
    var nets := PoolNetworks(pools);
    assignments := map p | p in pools :: p.name := [];
    assert sessions[0..] == sessions;
    for i := 0 to |sessions|
      invariant forall p :: p in pools ==> p.name in assignments
      invariant forall name :: name in assignments ==>
                  assignments[name] + Assigned(pools, sessions[i..], name) == Assigned(pools, sessions, name)
    {
      var next := AssignOne(pools, nets, sessions[i], assignments);
      forall name | name in next
        ensures next[name] + Assigned(pools, sessions[i + 1..], name) == Assigned(pools, sessions, name)
      {
        AssignedStep(pools, sessions, i, name);
        var gain, rest := Gain(pools, sessions[i], name), Assigned(pools, sessions[i + 1..], name);
        assert assignments[name] + gain + rest == assignments[name] + (gain + rest);
      }
      assignments := next;
    }
    NoneLeft(pools, sessions);
  }

  lemma NoneLeft(pools: seq<Pool>, sessions: seq<Session>)
    ensures forall name :: Assigned(pools, sessions[|sessions|..], name) == []
  {
  }

  /** `get_pool_detail` */
  method GetPoolDetail(pools: seq<Pool>, sessions: seq<Session>) returns (report: Report)
    ensures |report.pools| == |pools| == report.totalPools
    ensures forall i :: 0 <= i < |pools| ==> report.pools[i] == DetailOf(pools, sessions, pools[i])
    ensures report.totalUsed == SumUsed(pools, pools, sessions)
    ensures report.totalCapacity == Capacity(pools)
  {
    hide HostCount, Assigned;
    var assignments := AssignSessions(pools, sessions);
    var details: seq<Detail> := [];
    var totalUsed, totalCapacity := 0, 0;
    assert pools[0..] == pools;
    for i := 0 to |pools|
      invariant |details| == i
      invariant forall k :: 0 <= k < i ==> details[k] == DetailOf(pools, sessions, pools[k])
      invariant totalUsed + SumUsed(pools[i..], pools, sessions) == SumUsed(pools, pools, sessions)
      invariant totalCapacity + Capacity(pools[i..]) == Capacity(pools)
    {
      assert pools[i..][0] == pools[i] && pools[i..][1..] == pools[i + 1..];
      var pool := pools[i];
      var total := HostCount(pool.range);
      assert pool in pools;
      var taken := assignments[pool.name];
      var used := |taken|;
      var available := if total > used then total - used else 0;
      var pct := if total > 0 then used as real / total as real * 100.0 else 0.0;
      details := details + [Detail(pool.name, pool.range, total, used, available, pct, taken)];
      totalUsed := totalUsed + used;
      totalCapacity := totalCapacity + total;
    }
    report := Report(details, |pools|, totalUsed, totalCapacity);
  }

  /** A pool is reported full exactly if nothing in it is available, and over-full exactly if
      more sessions than hosts are assigned to it. */
  lemma UtilizationMeaning(pools: seq<Pool>, sessions: seq<Session>, p: Pool)
    requires HostCount(p.range) > 0
    ensures var d := DetailOf(pools, sessions, p);
            && d.utilization >= 0.0
            && (d.utilization >= 100.0 <==> d.available == 0)
            && (d.utilization > 100.0 <==> d.used > d.totalIps)
  {
    hide HostCount, Assigned;
    var d := DetailOf(pools, sessions, p);
    RatioBounds(d.used as real, d.totalIps as real);
  }

  lemma RatioBounds(a: real, b: real)
    requires a >= 0.0 && b > 0.0
    ensures a / b >= 0.0 && (a / b >= 1.0 <==> a >= b) && (a / b > 1.0 <==> a > b)
  {
    var q := a / b;
    assert q * b == a;
    if q >= 1.0 {
      assert (q - 1.0) * b >= 0.0;
    } else {
      assert (1.0 - q) * b > 0.0;
    }
    if q > 1.0 {
      assert (q - 1.0) * b > 0.0;
    } else {
      assert (1.0 - q) * b >= 0.0;
    }
  }

  /** The session's trimmed address is held by a pool of this name, and by none before it. */
  ghost predicate TakenBy(pools: seq<Pool>, s: Session, name: string) {
    exists x, j ::
      ParseAddress(Strip(s.ip)) == Some(x) && 0 <= j < |pools| && pools[j].name == name && Holds(pools[j], x)
      && forall k :: 0 <= k < j ==> !Holds(pools[k], x)
  }

  lemma NoAddress()
    ensures ParseAddress("") == None
  {
    SplitOne("", '.');
  }

  lemma GoesIff(pools: seq<Pool>, s: Session, name: string)
    ensures Goes(pools, s, name) <==> TakenBy(pools, s, name)
  {
    hide Strip, ParseAddress, Holds;
    NoAddress();
    if x, j :| ParseAddress(Strip(s.ip)) == Some(x) && 0 <= j < |pools| && pools[j].name == name && Holds(pools[j], x)
               && forall k :: 0 <= k < j ==> !Holds(pools[k], x)
    {
      assert FirstHolding(pools, x) == Some(j);
    }
  }

  /** How many of the first `k` sessions a name takes. */
  ghost function TakenBefore(pools: seq<Pool>, sessions: seq<Session>, name: string, k: nat): nat
    requires k <= |sessions|
  {
    if k == 0 then 0
    else TakenBefore(pools, sessions, name, k - 1) + if TakenBy(pools, sessions[k - 1], name) then 1 else 0
  }

  lemma {:induction false} AssignedLast(pools: seq<Pool>, sessions: seq<Session>, s: Session, name: string)
    ensures Assigned(pools, sessions + [s], name) == Assigned(pools, sessions, name) + Gain(pools, s, name)
  {
    hide Gain, Goes;
    var all := sessions + [s];
    AssignedFirst(pools, all, name);
    if sessions == [] {
      assert all[0] == s && all[1..] == [];
      assert Gain(pools, s, name) + [] == [] + Gain(pools, s, name);
    } else {
      AssignedFirst(pools, sessions, name);
      assert all[0] == sessions[0] && all[1..] == sessions[1..] + [s];
      AssignedLast(pools, sessions[1..], s, name);
      var a, b, c := Gain(pools, sessions[0], name), Assigned(pools, sessions[1..], name), Gain(pools, s, name);
      assert a + (b + c) == a + b + c;
    }
  }

  lemma AssignedFirst(pools: seq<Pool>, sessions: seq<Session>, name: string)
    requires sessions != []
    ensures Assigned(pools, sessions, name) == Gain(pools, sessions[0], name) + Assigned(pools, sessions[1..], name)
  {
    hide Goes;
  }

  lemma GainOf(pools: seq<Pool>, s: Session, name: string)
    ensures Gain(pools, s, name) == if TakenBy(pools, s, name) then [Assignment(Strip(s.ip), s.username)] else []
  {
    hide Goes, TakenBy, Strip;
    GoesIff(pools, s, name);
  }

  lemma {:induction false} AssignedPrefix(pools: seq<Pool>, sessions: seq<Session>, name: string, k: nat, i: nat)
    requires k <= |sessions|
    ensures var r := Assigned(pools, sessions[..k], name);
            && |r| == TakenBefore(pools, sessions, name, k)
            && (i < k && TakenBy(pools, sessions[i], name) ==>
                  TakenBefore(pools, sessions, name, i) < |r|
                  && r[TakenBefore(pools, sessions, name, i)] == Assignment(Strip(sessions[i].ip), sessions[i].username))
  {
    hide Gain, TakenBy, Strip;
    if k > 0 {
      var s := sessions[k - 1];
      assert sessions[..k] == sessions[..k - 1] + [s];
      AssignedPrefix(pools, sessions, name, k - 1, i);
      AssignedLast(pools, sessions[..k - 1], s, name);
      GainOf(pools, s, name);
    }
  }

  /** The assignments under a name are those of the sessions it takes, one each and in their
      order, with the trimmed address and the user name of the session. */
  lemma AssignedMeaning(pools: seq<Pool>, sessions: seq<Session>, name: string, i: nat)
    ensures |Assigned(pools, sessions, name)| == TakenBefore(pools, sessions, name, |sessions|)
    ensures i < |sessions| && TakenBy(pools, sessions[i], name) ==>
              var n := TakenBefore(pools, sessions, name, i);
              n < |Assigned(pools, sessions, name)|
              && Assigned(pools, sessions, name)[n] == Assignment(Strip(sessions[i].ip), sessions[i].username)
  {
    hide Assigned, TakenBy, Strip;
    AssignedPrefix(pools, sessions, name, |sessions|, i);
    assert sessions[..|sessions|] == sessions;
  }

  /** The report of one pool: its hosts, those assigned and those left, never below zero, and
      a share that is to a hundred as the assigned are to the hosts. */
  lemma DetailMeaning(pools: seq<Pool>, sessions: seq<Session>, p: Pool)
    ensures var d := DetailOf(pools, sessions, p);
            && d.name == p.name && d.range == p.range && d.totalIps == HostCount(p.range)
            && d.assignments == Assigned(pools, sessions, p.name) && d.used == |d.assignments|
            && d.used + d.available == (if d.used <= d.totalIps then d.totalIps else d.used)
            && d.utilization * d.totalIps as real == (if d.totalIps > 0 then d.used as real * 100.0 else 0.0)
            && (d.totalIps == 0 ==> d.utilization == 0.0)
  {
    hide HostCount, Assigned;
    var d := DetailOf(pools, sessions, p);
    if d.totalIps > 0 {
      Percent(d.used as real, d.totalIps as real);
    }
  }

  lemma Percent(a: real, b: real)
    requires b > 0.0
    ensures a / b * 100.0 * b == a * 100.0
  {
    var q := a / b;
    assert q * b == a;
    assert q * 100.0 * b == q * b * 100.0;
  }

  /** The two totals are sums over the pools. */
  lemma {:induction false} TotalsMeaning(a: seq<Pool>, b: seq<Pool>, p: Pool, pools: seq<Pool>, sessions: seq<Session>)
    ensures Capacity([]) == 0 && Capacity([p]) == HostCount(p.range) && Capacity(a + b) == Capacity(a) + Capacity(b)
    ensures SumUsed([], pools, sessions) == 0 && SumUsed([p], pools, sessions) == |Assigned(pools, sessions, p.name)|
    ensures SumUsed(a + b, pools, sessions) == SumUsed(a, pools, sessions) + SumUsed(b, pools, sessions)
    decreases |a|
  {
    hide HostCount, Assigned;
    assert [p][1..] == [];
    if a == [] {
      assert a + b == b;
    } else {
      assert (a + b)[1..] == a[1..] + b;
      TotalsMeaning(a[1..], b, p, pools, sessions);
    }
  }

  // ---------------------------------------------------------------------------
  // Conservation
  // ---------------------------------------------------------------------------

  /** A session is assigned to one pool at most, the first that holds its address; it is
      assigned exactly if some pool does. */
  lemma AssignedToFirst(pools: seq<Pool>, s: Session)
    ensures var x := AddressOf(s);
            PoolOf(pools, s).Some? <==> x.Some? && exists i :: 0 <= i < |pools| && Holds(pools[i], x.value)
    ensures PoolOf(pools, s).Some? ==>
              var k, x := PoolOf(pools, s).value, AddressOf(s).value;
              Holds(pools[k], x) && forall i :: 0 <= i < |pools| && Holds(pools[i], x) ==> k <= i
  {
  }

  /** Every assignment of a pool comes from a session whose address some pool of that name
      holds. */
  lemma {:induction false} AssignmentsBelong(pools: seq<Pool>, sessions: seq<Session>, name: string, a: Assignment)
    requires a in Assigned(pools, sessions, name)
    ensures exists k, x :: 0 <= k < |pools| && pools[k].name == name && ParseAddress(a.ip) == Some(x) && Holds(pools[k], x)
  {
    hide Strip, ParseAddress, Holds;
    var s := sessions[0];
    if Goes(pools, s, name) && a == Assignment(Strip(s.ip), s.username) {
      var k, x := PoolOf(pools, s).value, AddressOf(s).value;
      assert Holds(pools[k], x);
    } else {
      AssignmentsBelong(pools, sessions[1..], name, a);
    }
  }

  function Matched(pools: seq<Pool>, sessions: seq<Session>): nat {
    if sessions == [] then 0
    else (if PoolOf(pools, sessions[0]).Some? then 1 else 0) + Matched(pools, sessions[1..])
  }

  /** How many pools have the name. */
  function Namesakes(pools: seq<Pool>, name: string): nat {
    if pools == [] then 0 else (if pools[0].name == name then 1 else 0) + Namesakes(pools[1..], name)
  }

  lemma {:induction false} NamesakeExists(pools: seq<Pool>, k: nat)
    requires k < |pools|
    ensures Namesakes(pools, pools[k].name) >= 1
    ensures IpPool.DistinctNames(pools) ==> Namesakes(pools, pools[k].name) == 1
  {
    if k > 0 {
      assert pools[1..][k - 1] == pools[k];
      NamesakeExists(pools[1..], k - 1);
    } else if IpPool.DistinctNames(pools) {
      NoNamesake(pools[1..], pools[0].name);
    }
  }

  lemma {:induction false} NoNamesake(pools: seq<Pool>, name: string)
    requires forall p :: p in pools ==> p.name != name
    ensures Namesakes(pools, name) == 0
  {
    if pools != [] {
      assert pools[0] in pools;
      NoNamesake(pools[1..], name);
    }
  }

  /** How often each matched session is counted. */
  function Counted(pools: seq<Pool>, sessions: seq<Session>): nat {
    if sessions == [] then 0
    else
      (if PoolOf(pools, sessions[0]).Some? then Namesakes(pools, pools[PoolOf(pools, sessions[0]).value].name) else 0)
      + Counted(pools, sessions[1..])
  }

  lemma {:induction false} SumUsedStep(some: seq<Pool>, pools: seq<Pool>, sessions: seq<Session>)
    requires sessions != []
    ensures SumUsed(some, pools, sessions) == SumUsed(some, pools, sessions[1..])
            + if PoolOf(pools, sessions[0]).Some? then Namesakes(some, pools[PoolOf(pools, sessions[0]).value].name) else 0
  {
    hide Strip, PoolOf;
    if some != [] {
      SumUsedStep(some[1..], pools, sessions);
    }
  }

  lemma {:induction false} SumUsedNone(some: seq<Pool>, pools: seq<Pool>)
    ensures SumUsed(some, pools, []) == 0
  {
    if some != [] {
      SumUsedNone(some[1..], pools);
    }
  }

  lemma {:induction false} SumUsedIsCounted(pools: seq<Pool>, sessions: seq<Session>)
    ensures SumUsed(pools, pools, sessions) == Counted(pools, sessions)
  {
    hide PoolOf, Assigned, SumUsed, Namesakes;
    if sessions == [] {
      SumUsedNone(pools, pools);
    } else {
      SumUsedStep(pools, pools, sessions);
      SumUsedIsCounted(pools, sessions[1..]);
    }
  }

  /** The session's pool shares its name with no other. */
  predicate CountedOnce(pools: seq<Pool>, s: Session) {
    PoolOf(pools, s).Some? ==> Namesakes(pools, pools[PoolOf(pools, s).value].name) == 1
  }

  lemma {:induction false} CountedAtLeast(pools: seq<Pool>, sessions: seq<Session>)
    ensures Counted(pools, sessions) >= Matched(pools, sessions)
    ensures Counted(pools, sessions) == Matched(pools, sessions) <==>
            forall i :: 0 <= i < |sessions| ==> CountedOnce(pools, sessions[i])
  {
    hide PoolOf, Namesakes;
    if sessions != [] {
      CountedAtLeast(pools, sessions[1..]);
      if PoolOf(pools, sessions[0]).Some? {
        NamesakeExists(pools, PoolOf(pools, sessions[0]).value);
      }
      assert forall i :: 1 <= i < |sessions| ==> sessions[i] == sessions[1..][i - 1];
      assert (forall i :: 0 <= i < |sessions| ==> CountedOnce(pools, sessions[i])) <==>
             CountedOnce(pools, sessions[0]) && forall i :: 0 <= i < |sessions[1..]| ==> CountedOnce(pools, sessions[1..][i]);
    }
  }

  /** `total_used` is the number of sessions that some pool holds exactly if no session falls
      in a pool that shares its name with another; distinct names are enough. */
  lemma SessionsConserved(pools: seq<Pool>, sessions: seq<Session>)
    ensures SumUsed(pools, pools, sessions) >= Matched(pools, sessions)
    ensures SumUsed(pools, pools, sessions) == Matched(pools, sessions) <==>
            forall i :: 0 <= i < |sessions| ==> CountedOnce(pools, sessions[i])
    ensures IpPool.DistinctNames(pools) ==> SumUsed(pools, pools, sessions) == Matched(pools, sessions)
  {
    hide PoolOf, SumUsed, Counted, Matched, Namesakes;
    SumUsedIsCounted(pools, sessions);
    CountedAtLeast(pools, sessions);
    if IpPool.DistinctNames(pools) {
      forall i | 0 <= i < |sessions|
        ensures CountedOnce(pools, sessions[i])
      {
        if PoolOf(pools, sessions[i]).Some? {
          NamesakeExists(pools, PoolOf(pools, sessions[i]).value);
        }
      }
    }
  }

  /** Two pools of one name: every session that the first of them holds is counted twice. */
  lemma SharedNameCountsTwice(name: string, range: string, other: string, s: Session)
    requires AddressOf(s).Some? && Holds(Pool(name, range), AddressOf(s).value)
    ensures var pools := [Pool(name, range), Pool(name, other)];
            SumUsed(pools, pools, [s]) == 2 && Matched(pools, [s]) == 1
  {
    hide Holds, AddressOf, Strip;
    var pools := [Pool(name, range), Pool(name, other)];
    assert [s][1..] == [] && pools[1..] == [pools[1]] && [pools[1]][1..] == [];
    assert FirstHolding(pools, AddressOf(s).value) == Some(0);
    assert PoolOf(pools, s) == Some(0) && Goes(pools, s, name);
    assert Assigned(pools, [], name) == [] && Matched(pools, []) == 0;
    assert |Assigned(pools, [s], name)| == 1;
    assert SumUsed([], pools, [s]) == 0 && SumUsed([pools[1]], pools, [s]) == 1;
  }

  /** ... for instance `10.0.0.1` in two pools over `10.0.0.0/24`. */
  lemma CountedTwice()
    ensures var pools := [Pool("home", "10.0.0.0/24"), Pool("home", "10.1.0.0/24")];
            SumUsed(pools, pools, [Session("10.0.0.1", "alice")]) == 2
            && Matched(pools, [Session("10.0.0.1", "alice")]) == 1
  {
    hide SumUsed, Matched, AddressOf, Holds;
    SampleAddress();
    SharedNameCountsTwice("home", "10.0.0.0/24", "10.1.0.0/24", Session("10.0.0.1", "alice"));
  }

  lemma SampleAddress()
    ensures AddressOf(Session("10.0.0.1", "alice")).Some?
    ensures Holds(Pool("home", "10.0.0.0/24"), AddressOf(Session("10.0.0.1", "alice")).value)
  {
    hide Strip, ParseAddress, Size, Split;
    StripTrimmed("10.0.0.1");
    SampleParts("1");
    SampleParts("0");
    assert "10.0.0." + "1" == "10.0.0.1" && "10.0.0." + "0" == "10.0.0.0";
    SampleNetwork();
    SampleSize();
  }

  lemma SampleParts(last: string)
    requires last in {"0", "1"}
    ensures ParseAddress("10.0.0." + last) == Some(if last == "0" then 167772160 else 167772161)
  {
    hide Split, ParseOctet;
    var ten: string, zero: string := ['1', '0'], ['0'];
    SplitOne(last, '.');
    SplitCons(zero, '.', last);
    SplitCons(zero, '.', zero + ['.'] + last);
    SplitCons(ten, '.', zero + ['.'] + (zero + ['.'] + last));
    assert ten + ['.'] + (zero + ['.'] + (zero + ['.'] + last)) == "10.0.0." + last;
    assert Split("10.0.0." + last, '.') == [ten, zero, zero, last];
    assert ten == "10" && zero == "0";
    SampleOctets();
  }

  lemma SampleNetwork()
    requires ParseAddress("10.0.0.0") == Some(167772160)
    ensures ParseNetwork("10.0.0.0/24") == Some(Network(167772160, 24))
  {
    hide ParseAddress, ParseNetwork;
    var address: string := ['1', '0', '.', '0', '.', '0', '.', '0'];
    assert address == "10.0.0.0";
    Decimal24();
    NetworkValue(address, 167772160, 24);
    assert address + ['/'] + ['2', '4'] == "10.0.0.0/24";
  }

  lemma Decimal24()
    ensures Decimal(24) == ['2', '4']
  {
    assert Decimal(2) == ['2'] && DigitChar(4) == '4';
  }

  lemma SampleSize()
    ensures Size(Network(167772160, 24)) == 256
  {
    assert Pow2(2) == 4 && Pow2(4) == 16 && Pow2(6) == 64 && Pow2(8) == 256;
  }

  lemma SampleOctets()
    ensures ParseOctet("10") == Some(10) && ParseOctet("0") == Some(0) && ParseOctet("1") == Some(1)
  {
    assert "10"[..1] == "1" && "1"[..0] == "" && "0"[..0] == "";
    assert DigitValue('1') == 1 && DigitValue('0') == 0;
    assert ParseNat("1") == 1 && ParseNat("0") == 0 && ParseNat("10") == 10;
  }

  /** Whatever lies in the inner pool lies in the outer one. */
  predicate Inside(inner: Pool, outer: Pool) {
    && ParseNetwork(inner.range).Some? && ParseNetwork(outer.range).Some?
    && ParseNetwork(outer.range).value.prefix <= ParseNetwork(inner.range).value.prefix
    && In(ParseNetwork(inner.range).value.address, ParseNetwork(outer.range).value)
  }

  lemma InsideHolds(inner: Pool, outer: Pool, x: nat)
    requires Inside(inner, outer) && Holds(inner, x)
    ensures Holds(outer, x)
  {
    hide ParseNetwork;
    NestedOrDisjoint(ParseNetwork(outer.range).value, ParseNetwork(inner.range).value);
  }

  lemma ShadowedGetsNothing(pools: seq<Pool>, s: Session, i: nat, j: nat)
    requires i < j < |pools| && IpPool.DistinctNames(pools) && Inside(pools[j], pools[i])
    ensures !Goes(pools, s, pools[j].name)
  {
    hide ParseNetwork, Inside, Holds, AddressOf;
    if PoolOf(pools, s).Some? && PoolOf(pools, s).value == j {
      InsideHolds(pools[j], pools[i], AddressOf(s).value);
    }
  }

  /** A pool inside an earlier one never gets a session, so with distinct names it always
      reports zero used. */
  lemma {:induction false} ShadowedPoolIsUnused(pools: seq<Pool>, sessions: seq<Session>, i: nat, j: nat)
    requires i < j < |pools| && IpPool.DistinctNames(pools) && Inside(pools[j], pools[i])
    ensures DetailOf(pools, sessions, pools[j]).used == 0
  {
    hide Goes, Inside, HostCount;
    if sessions != [] {
      ShadowedPoolIsUnused(pools, sessions[1..], i, j);
      ShadowedGetsNothing(pools, sessions[0], i, j);
    }
  }
}
