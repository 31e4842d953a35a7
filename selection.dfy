/** The wireless-interface selection rule stated declaratively, and the
    properties of the rule proved about that statement. The loops that
    implement it (wip_linux.go and main.go) are proved against `Resolve` and
    `ExpectedCalls`. */
module Selection {
  import opened Host

  /** The first wireless interface at position `from` or later, or `|s|`
      when there is none. */
  function NextWireless(s: seq<Iface>, from: nat): (r: nat)
    requires from <= |s|
    ensures from <= r <= |s|
    ensures r < |s| ==> IsWireless(s[r])
    decreases |s| - from
  {
    if from == |s| then |s|
    else if IsWireless(s[from]) then from
    else NextWireless(s, from + 1)
  }

  /** Every interface skipped over by `NextWireless` has no wireless
      directory. */
  lemma {:induction false} NextWirelessSkips(s: seq<Iface>, from: nat, j: nat)
    requires from <= |s| && from <= j < NextWireless(s, from)
    ensures !IsWireless(s[j])
    decreases |s| - from
  {
    if j > from {
      NextWirelessSkips(s, from + 1, j);
    }
  }

  /** The search finds a wireless interface with none before it. */
  lemma {:induction false} NextWirelessIs(s: seq<Iface>, from: nat, k: nat)
    requires from <= k < |s| && IsWireless(s[k])
    requires forall j :: from <= j < k ==> !IsWireless(s[j])
    ensures NextWireless(s, from) == k
    decreases k - from
  {
    if from < k {
      NextWirelessIs(s, from + 1, k);
    }
  }

  /** While the search from `from` has not passed `i`, it agrees with the
      search from `i`. */
  lemma {:induction false} NextWirelessFrom(s: seq<Iface>, from: nat, i: nat)
    requires from <= i <= |s| && NextWireless(s, from) >= i
    ensures NextWireless(s, from) == NextWireless(s, i)
    decreases i - from
  {
    if from < i {
      NextWirelessFrom(s, from + 1, i);
    }
  }

  /** The IP of the first address only; nil when the list is empty or the
      first address is neither an `IPNet` nor an `IPAddr`. */
  function FirstIP(addrs: seq<Addr>): (r: IP)
    ensures r != NilIP ==> |addrs| > 0 && !addrs[0].OtherAddr? && r == addrs[0].ip
    ensures |addrs| > 0 && !addrs[0].OtherAddr? ==> r == addrs[0].ip
  {
    if |addrs| == 0 then NilIP
    else match addrs[0]
      case IPNet(ip) => ip
      case IPAddr(ip) => ip
      case OtherAddr => NilIP
  }

  /** What `findWirelessIP` returns without its platform guard: the
      enumeration error; otherwise, with `k` the first wireless interface,
      the non-wlan error when there is none, the address-listing error of
      `k`, the more-than-one error when a second wireless interface follows,
      and else `k`'s name and first IP. */
  function Resolve(interfaces: Result<seq<Iface>>): (r: Outcome)
    ensures r.err.Some? ==> r.wlan == "" && r.ip == NilIP
    ensures interfaces.Err? ==> r.err == Some(System(interfaces.error))
    ensures r.err.Some? && r.err.value.Qqget? ==> r.err.value.text in {NonWlan, MoreThanOneWlan}
    ensures r.err.None? ==> (interfaces.Ok? &&
      exists k :: 0 <= k < |interfaces.value| && IsWireless(interfaces.value[k]) && r.wlan == interfaces.value[k].name)
  {
    match interfaces
    case Err(e) => Failed(System(e))
    case Ok(s) =>
      var k := NextWireless(s, 0);
      if k == |s| then Failed(Qqget(NonWlan))
      else match s[k].addrs
        case Err(e) => Failed(System(e))
        case Ok(addrs) =>
          if NextWireless(s, k + 1) < |s| then Failed(Qqget(MoreThanOneWlan))
          else Outcome(s[k].name, FirstIP(addrs), None)
  }

  /** The calls made after walking the interfaces before position `i`
      without stopping: the enumeration, then for each interface a stat of
      its wireless directory, followed, for the first wireless one only, by
      its address listing. */
  function CallsUpTo(s: seq<Iface>, i: nat): (r: seq<OsCall>)
    requires i <= |s|
    ensures |r| == 1 + i + (if NextWireless(s, 0) < i then 1 else 0)
    ensures r[0] == Enumerate
  {
    if i == 0 then [Enumerate]
    else CallsUpTo(s, i - 1) + [Lstat(i - 1)] + (if i - 1 == NextWireless(s, 0) then [Addrs(i - 1)] else [])
  }

  lemma CallsUpToStep(s: seq<Iface>, i: nat)
    requires i < |s|
    ensures i != NextWireless(s, 0) ==> CallsUpTo(s, i + 1) == CallsUpTo(s, i) + [Lstat(i)]
    ensures i == NextWireless(s, 0) ==> CallsUpTo(s, i + 1) == CallsUpTo(s, i) + [Lstat(i)] + [Addrs(i)]
  {
  }

  /** How many interfaces the walk looks at: up to the first wireless one
      when its address listing fails, up to a second wireless one when there
      is one, and otherwise all of them. */
  function StopAt(s: seq<Iface>): (r: nat)
    ensures r <= |s|
  {
    var k := NextWireless(s, 0);
    if k == |s| then |s|
    else if s[k].addrs.Err? then k + 1
    else if NextWireless(s, k + 1) < |s| then NextWireless(s, k + 1) + 1
    else |s|
  }

  /** The operating-system calls the rule makes, in order: the enumeration
      alone when it fails, otherwise the walk up to where it stops. */
  function ExpectedCalls(interfaces: Result<seq<Iface>>): (r: seq<OsCall>)
    ensures |r| > 0 && r[0] == Enumerate
    ensures interfaces.Err? ==> r == [Enumerate]
    ensures interfaces.Ok? ==> |r| <= 2 + |interfaces.value|
  {
    match interfaces
    case Err(_) => [Enumerate]
    case Ok(s) => CallsUpTo(s, StopAt(s))
  }

  // ---------------------------------------------------------------------
  // An independent reference: the rule depends only on the wireless
  // interfaces, taken in order, and on how many there are.

  /** The wireless interfaces of `s`, in enumeration order. */
  function Wireless(s: seq<Iface>): (w: seq<Iface>)
    ensures |w| <= |s|
  {
    if s == [] then []
    else (if IsWireless(s[0]) then [s[0]] else []) + Wireless(s[1..])
  }

  /** The number of interfaces with a wireless directory. */
  function CountWireless(s: seq<Iface>): nat {
    |Wireless(s)|
  }

  /** The rule stated by counting: none is the non-wlan error, two or more is
      the more-than-one error unless the first one's address listing fails
      first, exactly one gives its name and first IP. */
  function ByCount(w: seq<Iface>): Outcome {
    if |w| == 0 then Failed(Qqget(NonWlan))
    else match w[0].addrs
      case Err(e) => Failed(System(e))
      case Ok(addrs) =>
        if |w| >= 2 then Failed(Qqget(MoreThanOneWlan))
        else Outcome(w[0].name, FirstIP(addrs), None)
  }

  lemma {:induction false} WirelessFrom(s: seq<Iface>, from: nat)
    requires from <= |s|
    ensures var k := NextWireless(s, from);
      if k == |s| then Wireless(s[from..]) == []
      else Wireless(s[from..]) == [s[k]] + Wireless(s[k + 1..])
    decreases |s| - from
  {
    if from < |s| {
      assert s[from..][0] == s[from];
      assert s[from..][1..] == s[from + 1..];
      if !IsWireless(s[from]) {
        WirelessFrom(s, from + 1);
      }
    }
  }

  lemma {:induction false} WirelessConcat(a: seq<Iface>, b: seq<Iface>)
    ensures Wireless(a + b) == Wireless(a) + Wireless(b)
  {
    if a == [] {
      assert a + b == b;
    } else {
      var h := if IsWireless(a[0]) then [a[0]] else [];
      calc {
        Wireless(a + b);
        { assert (a + b)[0] == a[0]; }
        h + Wireless((a + b)[1..]);
        { assert (a + b)[1..] == a[1..] + b; }
        h + Wireless(a[1..] + b);
        { WirelessConcat(a[1..], b); }
        h + (Wireless(a[1..]) + Wireless(b));
        (h + Wireless(a[1..])) + Wireless(b);
        Wireless(a) + Wireless(b);
      }
    }
  }

  /** The loop's outcome equals the counting reference applied to the
      wireless interfaces alone. */
  lemma ResolveByCount(s: seq<Iface>)
    ensures Resolve(Ok(s)) == ByCount(Wireless(s))
  {
    WirelessFrom(s, 0);
    assert s[0..] == s;
    var k := NextWireless(s, 0);
    if k < |s| {
      WirelessFrom(s, k + 1);
    }
  }

  /** An interface without a wireless directory (failed stat, or not a
      directory), wherever it is inserted, never changes the result. */
  lemma NonWirelessIgnored(s: seq<Iface>, p: nat, f: Iface)
    requires p <= |s|
    requires !IsWireless(f)
    ensures Resolve(Ok(s[..p] + [f] + s[p..])) == Resolve(Ok(s))
  {
    WirelessConcat(s[..p] + [f], s[p..]);
    WirelessConcat(s[..p], [f]);
    WirelessConcat(s[..p], s[p..]);
    assert s[..p] + s[p..] == s;
    assert Wireless([f]) == [] by { assert [f][1..] == []; }
    ResolveByCount(s[..p] + [f] + s[p..]);
    ResolveByCount(s);
  }

  /** No wireless interface: the non-wlan error, and only then. */
  lemma NoWirelessIffNonWlan(s: seq<Iface>)
    ensures Resolve(Ok(s)).err == Some(Qqget(NonWlan)) <==> CountWireless(s) == 0
    ensures CountWireless(s) == 0 ==> Resolve(Ok(s)) == Failed(Qqget(NonWlan))
  {
    ResolveByCount(s);
  }

  /** Exactly one wireless interface whose address listing succeeds: its
      name and the IP of its first address. */
  lemma SingleWirelessSelected(s: seq<Iface>, k: nat)
    requires k < |s| && IsWireless(s[k]) && CountWireless(s) == 1
    requires s[k].addrs.Ok?
    ensures Resolve(Ok(s)) == Outcome(s[k].name, FirstIP(s[k].addrs.value), None)
  {
    ResolveByCount(s);
    assert s == s[..k] + [s[k]] + s[k + 1..];
    WirelessConcat(s[..k] + [s[k]], s[k + 1..]);
    WirelessConcat(s[..k], [s[k]]);
    assert Wireless([s[k]]) == [s[k]] by { assert [s[k]][1..] == []; }
  }

  /** Success happens only with exactly one wireless interface, whose name is
      returned and whose address listing succeeded. */
  lemma SuccessOnlyWithOneWireless(s: seq<Iface>)
    requires Resolve(Ok(s)).err == None
    ensures CountWireless(s) == 1
    ensures var w := Wireless(s)[0];
      w.addrs.Ok? && Resolve(Ok(s)) == Outcome(w.name, FirstIP(w.addrs.value), None)
  {
    ResolveByCount(s);
  }

  /** Two or more wireless interfaces: the more-than-one error, unless the
      first one's address listing fails, whose error is then returned as is. */
  lemma SeveralWirelessRefused(s: seq<Iface>)
    requires CountWireless(s) >= 2
    ensures var first := Wireless(s)[0];
      Resolve(Ok(s)) == if first.addrs.Err? then Failed(System(first.addrs.error)) else Failed(Qqget(MoreThanOneWlan))
  {
    ResolveByCount(s);
  }

  /** The address-listing error of the first wireless interface is returned
      unchanged, whatever follows it. */
  lemma FirstAddrsErrorPropagated(s: seq<Iface>, k: nat, rest: seq<Iface>)
    requires k < |s| && IsWireless(s[k])
    requires forall j :: 0 <= j < k ==> !IsWireless(s[j])
    requires s[k].addrs.Err?
    ensures Resolve(Ok(s + rest)) == Failed(System(s[k].addrs.error))
  {
    var t := s + rest;
    assert t[k] == s[k];
    assert forall j :: 0 <= j < k ==> t[j] == s[j];
    NextWirelessIs(t, 0, k);
  }

  /** Only the first wireless interface's address listing is consulted:
      changing any other interface's listing changes nothing. */
  lemma OtherAddrsIrrelevant(s: seq<Iface>, j: nat, a: Result<seq<Addr>>)
    requires j < |s| && j != NextWireless(s, 0)
    ensures Resolve(Ok(s[j := s[j].(addrs := a)])) == Resolve(Ok(s))
  {
    var t := s[j := s[j].(addrs := a)];
    assert forall i :: 0 <= i < |s| ==> IsWireless(t[i]) == IsWireless(s[i]);
    SameWirelessSameNext(s, t, 0);
    var k := NextWireless(s, 0);
    if k < |s| {
      SameWirelessSameNext(s, t, k + 1);
    }
  }

  lemma {:induction false} SameWirelessSameNext(s: seq<Iface>, t: seq<Iface>, from: nat)
    requires |s| == |t| && from <= |s|
    requires forall i :: 0 <= i < |s| ==> IsWireless(t[i]) == IsWireless(s[i])
    ensures NextWireless(s, from) == NextWireless(t, from)
    decreases |s| - from
  {
    if from < |s| && !IsWireless(s[from]) {
      SameWirelessSameNext(s, t, from + 1);
    }
  }

  /** The interfaces whose address lists a trace asks for. */
  function Listed(cs: seq<OsCall>): set<nat> {
    if cs == [] then {}
    else Listed(cs[..|cs| - 1]) + (if cs[|cs| - 1].Addrs? then {cs[|cs| - 1].index} else {})
  }

  lemma {:induction false} ListedConcat(a: seq<OsCall>, b: seq<OsCall>)
    ensures Listed(a + b) == Listed(a) + Listed(b)
    decreases |b|
  {
    if b == [] {
      assert a + b == a;
    } else {
      assert (a + b)[..|a + b| - 1] == a + b[..|b| - 1];
      ListedConcat(a, b[..|b| - 1]);
    }
  }

  /** The address list of exactly one interface is asked for, the first
      wireless one, and of none when there is no wireless interface: in
      particular a second wireless interface's addresses are never listed. */
  lemma OnlyFirstWirelessListed(s: seq<Iface>)
    ensures var k := NextWireless(s, 0);
      Listed(ExpectedCalls(Ok(s))) == if k < |s| then {k} else {}
  {
    ListedUpTo(s, StopAt(s));
  }

  lemma {:induction false} ListedUpTo(s: seq<Iface>, i: nat)
    requires i <= |s|
    ensures var k := NextWireless(s, 0);
      Listed(CallsUpTo(s, i)) == if k < i then {k} else {}
  {
    if i == 0 {
      assert [Enumerate][..0] == [];
    } else {
      ListedUpTo(s, i - 1);
      var k := NextWireless(s, 0);
      var tail := if i - 1 == k then [Addrs(i - 1)] else [];
      ListedConcat(CallsUpTo(s, i - 1) + [Lstat(i - 1)], tail);
      assert (CallsUpTo(s, i - 1) + [Lstat(i - 1)])[..|CallsUpTo(s, i - 1)|] == CallsUpTo(s, i - 1);
      assert tail != [] ==> tail[..0] == [];
    }
  }

  /** Later addresses never influence the IP: only the first is looked at. */
  lemma FirstAddressWins(addrs: seq<Addr>, later: seq<Addr>)
    requires |addrs| > 0
    ensures FirstIP(addrs + later) == FirstIP(addrs)
    ensures addrs[0].OtherAddr? ==> FirstIP(addrs) == NilIP
    ensures !addrs[0].OtherAddr? ==> FirstIP(addrs) == addrs[0].ip
  {
  }
}
