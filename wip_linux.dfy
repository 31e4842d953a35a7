/** `findWirelessIP` of wip_linux.go: the selection loop without a platform
    guard. */
module WipLinux {
  import opened Host
  import opened Selection

  /** Walks the enumerated interfaces in order, skipping those without a
      wireless directory; fails on reaching a second wireless interface,
      returns the address-listing error of the first one as soon as it
      occurs, and otherwise returns its name and the IP of its first
      address. `calls` records, in order, the operating-system calls made. */
  method FindWirelessIP(interfaces: Result<seq<Iface>>)
    returns (wlan: string, ip: IP, err: Option<Error>, ghost calls: seq<OsCall>)
    ensures Outcome(wlan, ip, err) == Resolve(interfaces)
    ensures calls == ExpectedCalls(interfaces)
  {
    calls := [Enumerate];
    if interfaces.Err? {
      return "", NilIP, Some(System(interfaces.error)), calls;
    }
    var ifaces := interfaces.value;

    ip := NilIP;
    wlan := "";
    var wlanFound := false;
    ghost var k := NextWireless(ifaces, 0);
    var i := 0;
    while i < |ifaces|
      invariant 0 <= i <= |ifaces|
      invariant wlanFound <==> k < i
      invariant calls == CallsUpTo(ifaces, i)
      invariant !wlanFound ==> wlan == "" && ip == NilIP
      invariant wlanFound ==> ifaces[k].addrs.Ok? && NextWireless(ifaces, k + 1) >= i
      invariant wlanFound ==> wlan == ifaces[k].name && ip == FirstIP(ifaces[k].addrs.value)
    {
      var iface := ifaces[i];
      CallsUpToStep(ifaces, i);
      if wlanFound { NextWirelessFrom(ifaces, k + 1, i); } else { NextWirelessFrom(ifaces, 0, i); }
      calls := calls + [Lstat(i)];
      if iface.wirelessDir.StatFailed? {
        i := i + 1;
        continue;
      }
      if iface.wirelessDir.isDir {
        if wlanFound {
          return "", NilIP, Some(Qqget(MoreThanOneWlan)), calls;
        }
        wlanFound := true;
        wlan := iface.name;

        calls := calls + [Addrs(i)];
        if iface.addrs.Err? {
          return "", NilIP, Some(System(iface.addrs.error)), calls;
        }
        var addrs := iface.addrs.value;
        // the range loop over the addresses breaks after its first
        // iteration: only the first address is looked at
        if |addrs| > 0 {
          match addrs[0] {
            case IPNet(a) => ip := a;
            case IPAddr(a) => ip := a;
            case OtherAddr =>
          }
        }
      }
      i := i + 1;
    }
    if !wlanFound {
      return "", NilIP, Some(Qqget(NonWlan)), calls;
    }
    return wlan, ip, None, calls;
  }
}
