/** The decision logic of main.go: `findWirelessIP` with its platform guard,
    the serving mode chosen from the positional arguments, the advertised
    URL, and the order in which `main` runs these steps before anything is
    served. */
module Qrget {
  import opened Host
  import opened Selection
  import WipLinux

  // ---------------------------------------------------------------------
  // findWirelessIP with the platform guard

  /** The outcome of main.go's `findWirelessIP` on platform `goos`. */
  function ResolveOn(goos: string, interfaces: Result<seq<Iface>>): (r: Outcome)
    ensures goos != "linux" ==> r == Failed(Qqget(UnsupportedOS))
    ensures goos == "linux" ==> r == Resolve(interfaces)
    ensures r.err.None? ==> goos == "linux"
  {
    if goos != "linux" then Failed(Qqget(UnsupportedOS)) else Resolve(interfaces)
  }

  /** Off Linux, fails with the unsupported-OS error before consulting the
      operating system at all; on Linux, the selection rule. The loop after
      the guard is the same as wip_linux.go's. */
  method FindWirelessIP(goos: string, interfaces: Result<seq<Iface>>)
    returns (wlan: string, ip: IP, err: Option<Error>, ghost calls: seq<OsCall>)
    ensures goos != "linux" ==> wlan == "" && ip == NilIP && err == Some(Qqget(UnsupportedOS))
    ensures goos == "linux" ==> Outcome(wlan, ip, err) == Resolve(interfaces)
    ensures Outcome(wlan, ip, err) == ResolveOn(goos, interfaces)
    ensures calls == if goos == "linux" then ExpectedCalls(interfaces) else []
  {
    if goos != "linux" {
      return "", NilIP, Some(Qqget(UnsupportedOS)), [];
    }
    wlan, ip, err, calls := WipLinux.FindWirelessIP(interfaces);
  }

  // ---------------------------------------------------------------------
  // Serving mode from the positional arguments

  /** What is served: a directory (the working directory) or one file. */
  datatype Target = Target(dirMode: bool, name: string)

  /** The argument switch's outcomes: a target; a panic because the working
      directory could not be determined; or the fatal usage error. */
  datatype Mode = Serve(target: Target) | WorkdirPanic(err: Error) | UsageFatal(msg: string)

  const TooManyFiles: string := "Serving more than one file is not yet supported"

  /** `switch len(flag.Args())`. The working directory (`os.Getwd`) is given
      as `getwd` and is consulted only when there is no argument. */
  function ServingMode(args: seq<string>, getwd: Result<string>): (m: Mode)
    ensures m.Serve? <==> |args| == 1 || (|args| == 0 && getwd.Ok?)
    ensures m.Serve? && m.target.dirMode <==> |args| == 0 && getwd.Ok?
    ensures m.Serve? && m.target.dirMode ==> getwd == Ok(m.target.name)
    ensures m.Serve? && !m.target.dirMode ==> |args| == 1 && m.target.name == args[0]
    ensures m.WorkdirPanic? ==> |args| == 0 && getwd == Err(m.err.text) && m.err.System?
    ensures m.UsageFatal? <==> |args| >= 2
    ensures m.UsageFatal? ==> m.msg == TooManyFiles
  {
    match |args|
    case 0 =>
      (match getwd
       case Ok(dir) => Serve(Target(true, dir))
       case Err(e) => WorkdirPanic(System(e)))
    case 1 => Serve(Target(false, args[0]))
    case _ => UsageFatal(TooManyFiles)
  }

  /** With an argument, the working directory plays no part. */
  lemma WorkdirIgnoredWithArguments(args: seq<string>, g1: Result<string>, g2: Result<string>)
    requires |args| > 0
    ensures ServingMode(args, g1) == ServingMode(args, g2)
  {
  }

  // ---------------------------------------------------------------------
  // The advertised URL: fmt.Sprintf("http://%s:%d/", ip, port)

  const Scheme: string := "http://"

  function DigitChar(d: nat): (c: char)
    requires d < 10
    ensures '0' <= c <= '9'
  {
    (48 + d) as char
  }

  predicate IsDigit(c: char) {
    '0' <= c <= '9'
  }

  /** `%d` of a non-negative integer: decimal, no sign, no padding. */
  function Decimal(n: nat): (r: string)
    ensures |r| > 0
    ensures forall i :: 0 <= i < |r| ==> IsDigit(r[i])
    ensures r[0] == '0' ==> n == 0 && |r| == 1
    ensures n == 0 ==> r == "0"
  {
    if n < 10 then [DigitChar(n)] else Decimal(n / 10) + [DigitChar(n % 10)]
  }

  /** Reads back a string of decimal digits. */
  function ParseDecimal(s: string): (r: Option<nat>)
    ensures r.Some? ==> |s| > 0
  {
    if |s| == 0 then None
    else if !IsDigit(s[|s| - 1]) then None
    else
      var d := (s[|s| - 1] as int) - 48;
      if |s| == 1 then Some(d)
      else match ParseDecimal(s[..|s| - 1])
        case None => None
        case Some(v) => Some(v * 10 + d)
  }

  lemma {:induction false} ParseDecimalOfDecimal(n: nat)
    ensures ParseDecimal(Decimal(n)) == Some(n)
  {
    if n >= 10 {
      ParseDecimalOfDecimal(n / 10);
      var s := Decimal(n / 10) + [DigitChar(n % 10)];
      assert s[..|s| - 1] == Decimal(n / 10);
    }
  }

  /** The URL advertised for `ipText` (the IP's textual form) and `port`.
      The path is always the root: the served name is never part of it. */
  function Url(ipText: string, port: nat): (r: string)
    ensures |r| == |Scheme| + |ipText| + |Decimal(port)| + 2
    ensures r[..|Scheme|] == Scheme && r[|r| - 1] == '/'
  {
    Scheme + ipText + ":" + Decimal(port) + "/"
  }

  datatype UrlParts = UrlParts(host: string, port: nat, path: string)

  /** Index of the first `c` in `s`, or `|s|`. */
  function FirstIndexOf(s: string, c: char): (r: nat)
    ensures r <= |s|
    ensures r < |s| ==> s[r] == c
    ensures forall j :: 0 <= j < r ==> s[j] != c
  {
    if |s| == 0 then 0
    else if s[0] == c then 0
    else 1 + FirstIndexOf(s[1..], c)
  }

  /** Index of the last `c` in `s`, or -1. */
  function LastIndexOf(s: string, c: char): (r: int)
    ensures -1 <= r < |s|
    ensures r >= 0 ==> s[r] == c
    ensures forall j :: r < j < |s| ==> s[j] != c
  {
    if |s| == 0 then -1
    else if s[|s| - 1] == c then |s| - 1
    else LastIndexOf(s[..|s| - 1], c)
  }

  /** An independent reader of such URLs: after the scheme, the authority
      runs to the first `/`; its port is the digits after the last `:`, and
      the host is everything before that `:`. This reader is more lenient
      than RFC 3986, which admits a `:` in a host only inside brackets. */
  function ParseUrl(u: string): Option<UrlParts> {
    if |u| < |Scheme| || u[..|Scheme|] != Scheme then None
    else
      var rest := u[|Scheme|..];
      var slash := FirstIndexOf(rest, '/');
      var authority := rest[..slash];
      var colon := LastIndexOf(authority, ':');
      if colon < 0 then None
      else match ParseDecimal(authority[colon + 1..])
        case None => None
        case Some(p) => Some(UrlParts(authority[..colon], p, rest[slash..]))
  }

  lemma FirstIndexOfAt(s: string, c: char, k: nat)
    requires k < |s| && s[k] == c
    requires forall j :: 0 <= j < k ==> s[j] != c
    ensures FirstIndexOf(s, c) == k
  {
  }

  lemma LastIndexOfAt(s: string, c: char, k: nat)
    requires k < |s| && s[k] == c
    requires forall j :: k < j < |s| ==> s[j] != c
    ensures LastIndexOf(s, c) == k
  {
  }

  /** The authority ends at the `/` that follows the port digits. */
  lemma AuthorityEnds(ipText: string, d: string)
    requires forall i :: 0 <= i < |ipText| ==> ipText[i] != '/'
    requires forall i :: 0 <= i < |d| ==> IsDigit(d[i])
    ensures var rest := ipText + ":" + d + "/";
      FirstIndexOf(rest, '/') == |ipText| + 1 + |d| &&
      rest[..|ipText| + 1 + |d|] == ipText + ":" + d &&
      rest[|ipText| + 1 + |d|..] == "/"
  {
    var rest := ipText + ":" + d + "/";
    assert forall j :: 0 <= j < |ipText| ==> rest[j] == ipText[j];
    assert forall j :: |ipText| < j < |ipText| + 1 + |d| ==> rest[j] == d[j - |ipText| - 1];
    FirstIndexOfAt(rest, '/', |ipText| + 1 + |d|);
  }

  /** The port digits follow the last `:` of the authority. */
  lemma PortFollowsLastColon(ipText: string, d: string)
    requires forall i :: 0 <= i < |d| ==> IsDigit(d[i])
    ensures var authority := ipText + ":" + d;
      LastIndexOf(authority, ':') == |ipText| &&
      authority[..|ipText|] == ipText && authority[|ipText| + 1..] == d
  {
    var authority := ipText + ":" + d;
    assert forall j :: |ipText| < j < |authority| ==> authority[j] == d[j - |ipText| - 1];
    LastIndexOfAt(authority, ':', |ipText|);
  }

  /** Reading the advertised URL gives back the host text, the port and the
      root path `/`, for any host text without a `/`. */
  lemma UrlRoundTrip(ipText: string, port: nat)
    requires forall i :: 0 <= i < |ipText| ==> ipText[i] != '/'
    ensures ParseUrl(Url(ipText, port)) == Some(UrlParts(ipText, port, "/"))
  {
    var d := Decimal(port);
    var rest := ipText + ":" + d + "/";
    assert Url(ipText, port) == Scheme + rest;
    assert (Scheme + rest)[..|Scheme|] == Scheme;
    assert (Scheme + rest)[|Scheme|..] == rest;
    AuthorityEnds(ipText, d);
    PortFollowsLastColon(ipText, d);
    ParseDecimalOfDecimal(port);
  }

  /** The host of an authority that does not start with `[`, as a reader
      that ends it at the first `:` takes it. Section 3.2.2 of RFC 3986
      admits no `:` in a registered name or an IPv4 address, and a port of
      digits only, so a strict reader instead rejects an authority whose
      text after the first `:` is not all digits. */
  function HostToFirstColon(authority: string): (h: string)
    ensures h <= authority && ':' !in h
  {
    authority[..FirstIndexOf(authority, ':')]
  }

  /** The URL does not bracket the host text: when that text holds a `:`,
      as an IPv6 address does, a reader that ends the host at the first `:`
      takes only the text before it as the host of the URL's authority
      `<ipText>:<port>`, so the IP text is not recovered. */
  lemma UnbracketedHostTruncated(ipText: string, port: nat, c: nat)
    requires c < |ipText| && ipText[c] == ':'
    ensures HostToFirstColon(ipText + ":" + Decimal(port)) == ipText[..FirstIndexOf(ipText, ':')]
    ensures HostToFirstColon(ipText + ":" + Decimal(port)) != ipText
  {
    var authority := ipText + ":" + Decimal(port);
    var k := FirstIndexOf(ipText, ':');
    assert k <= c;
    assert forall j :: 0 <= j < k ==> authority[j] == ipText[j];
    FirstIndexOfAt(authority, ':', k);
    assert authority[..k] == ipText[..k];
  }

  // ---------------------------------------------------------------------
  // The start-up sequence of main, up to the point where serving begins

  /** Everything main has once it is ready to serve. */
  datatype Launch = Launch(target: Target, wlan: string, ip: IP, port: nat, url: string)

  /** The start-up's outcome: ready to serve, the fatal usage error, or a
      panic with the error that stopped it. */
  datatype Startup = Ready(launch: Launch) | Fatal(msg: string) | Panic(err: Error)

  /** main up to the QR encoding: the argument switch, then interface
      selection, then the free port (`freeport.GetFreePort`, given as
      `port`), then the URL. `ipText` is the IP's textual form as `%s`
      prints it. Any failure stops the start-up before anything is served. */
  function Start(args: seq<string>, getwd: Result<string>, goos: string,
                 interfaces: Result<seq<Iface>>, port: Result<nat>,
                 ipText: IP -> string): (r: Startup)
    ensures r.Fatal? <==> |args| >= 2
    ensures r.Fatal? ==> r.msg == TooManyFiles
    ensures r.Ready? ==> ServingMode(args, getwd) == Serve(r.launch.target) && port == Ok(r.launch.port)
    ensures r.Ready? ==> goos == "linux" && Resolve(interfaces) == Outcome(r.launch.wlan, r.launch.ip, None)
    ensures r.Ready? ==> r.launch.url == Url(ipText(r.launch.ip), r.launch.port)
    ensures ServingMode(args, getwd).WorkdirPanic? ==> r == Panic(ServingMode(args, getwd).err)
    ensures ServingMode(args, getwd).Serve? && ResolveOn(goos, interfaces).err.Some? ==>
      r == Panic(ResolveOn(goos, interfaces).err.value)
    ensures ServingMode(args, getwd).Serve? && ResolveOn(goos, interfaces).err.None? && port.Err? ==>
      r == Panic(System(port.error))
    ensures ServingMode(args, getwd).Serve? && ResolveOn(goos, interfaces).err.None? && port.Ok? ==>
      r.Ready?
  {
    match ServingMode(args, getwd)
    case UsageFatal(msg) => Fatal(msg)
    case WorkdirPanic(e) => Panic(e)
    case Serve(target) =>
      var found := ResolveOn(goos, interfaces);
      if found.err.Some? then Panic(found.err.value)
      else match port
        case Err(e) => Panic(System(e))
        case Ok(p) => Ready(Launch(target, found.wlan, found.ip, p, Url(ipText(found.ip), p)))
  }

  /** Serving begins only on Linux, with a successful enumeration holding
      exactly one wireless interface, whose name and first IP are used. */
  lemma StartNeedsOneWireless(args: seq<string>, getwd: Result<string>, goos: string,
                              interfaces: Result<seq<Iface>>, port: Result<nat>,
                              ipText: IP -> string)
    requires Start(args, getwd, goos, interfaces, port, ipText).Ready?
    ensures goos == "linux" && interfaces.Ok? && CountWireless(interfaces.value) == 1
    ensures var w := Wireless(interfaces.value)[0];
      var l := Start(args, getwd, goos, interfaces, port, ipText).launch;
      w.addrs.Ok? && l.wlan == w.name && l.ip == FirstIP(w.addrs.value)
  {
    SuccessOnlyWithOneWireless(interfaces.value);
  }

  /** Too many arguments stop the start-up before any interface is looked
      at: the outcome is the usage error whatever the host. */
  lemma ArgumentsCheckedFirst(args: seq<string>, getwd: Result<string>, goos: string,
                              interfaces: Result<seq<Iface>>, port: Result<nat>,
                              ipText: IP -> string)
    requires |args| >= 2
    ensures Start(args, getwd, goos, interfaces, port, ipText) == Fatal(TooManyFiles)
  {
  }

  /** Conversely, on Linux with exactly one wireless interface whose address
      listing succeeds and a free port, start-up is ready to serve that
      interface's name and first IP on the port. */
  lemma StartReadyOnOneWireless(args: seq<string>, getwd: Result<string>,
                                interfaces: seq<Iface>, k: nat, p: nat,
                                ipText: IP -> string)
    requires ServingMode(args, getwd).Serve?
    requires k < |interfaces| && IsWireless(interfaces[k]) && CountWireless(interfaces) == 1
    requires interfaces[k].addrs.Ok?
    ensures var ip := FirstIP(interfaces[k].addrs.value);
      Start(args, getwd, "linux", Ok(interfaces), Ok(p), ipText) ==
      Ready(Launch(ServingMode(args, getwd).target, interfaces[k].name, ip, p, Url(ipText(ip), p)))
  {
    SingleWirelessSelected(interfaces, k);
  }

  /** Zero or several wireless interfaces stop the start-up with a panic. */
  lemma StartRefusesAmbiguousHost(args: seq<string>, getwd: Result<string>,
                                  interfaces: seq<Iface>, port: Result<nat>,
                                  ipText: IP -> string)
    requires ServingMode(args, getwd).Serve?
    requires CountWireless(interfaces) != 1
    ensures Start(args, getwd, "linux", Ok(interfaces), port, ipText).Panic?
  {
    if Resolve(Ok(interfaces)).err == None {
      SuccessOnlyWithOneWireless(interfaces);
    }
  }

  /** The URL of a ready start-up reads back as the IP's text, the allocated
      port and the root path. */
  lemma StartUrlReadsBack(args: seq<string>, getwd: Result<string>, goos: string,
                          interfaces: Result<seq<Iface>>, port: Result<nat>,
                          ipText: IP -> string)
    requires Start(args, getwd, goos, interfaces, port, ipText).Ready?
    requires var ip := Start(args, getwd, goos, interfaces, port, ipText).launch.ip;
      forall i :: 0 <= i < |ipText(ip)| ==> ipText(ip)[i] != '/'
    ensures var l := Start(args, getwd, goos, interfaces, port, ipText).launch;
      port == Ok(l.port) && ParseUrl(l.url) == Some(UrlParts(ipText(l.ip), l.port, "/"))
  {
    var l := Start(args, getwd, goos, interfaces, port, ipText).launch;
    UrlRoundTrip(ipText(l.ip), l.port);
  }
}
