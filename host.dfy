/** What the program learns from the operating system, modelled as values.
    The real calls (interface enumeration, `Lstat` of the sysfs wireless
    directory, the address listing of one interface) are not modelled; their
    results are inputs, and the calls a method makes are recorded as a trace. */
module Host {

  datatype Option<+T> = None | Some(value: T)

  /** The answer of an operating-system call: a value, or the text of the
      error it failed with. */
  datatype Result<+T> = Ok(value: T) | Err(error: string)

  type byte = bv8

  /** A `net.IP`: its bytes; the nil IP is the empty sequence. */
  type IP = seq<byte>

  const NilIP: IP := []

  /** The two kinds of `error` the core produces: the program's own string
      error type `errQqget`, and an error handed back unchanged from an
      operating-system call, identified by its text. */
  datatype Error = Qqget(text: string) | System(text: string)
  {
    /** `errQqget.Error` gives back the string it was made from. */
    function Message(): (m: string)
      ensures Qqget? ==> Qqget(m) == this
    {
      text
    }
  }

  const UnsupportedOS: string := "Support of other OSes than Linux is not (yet) supported"
  const MoreThanOneWlan: string := "Support for more than one wlan interface is not implemented"
  const NonWlan: string := "Support for non wlan interface is not implemented"

  /** One entry of an interface's address list: a `*net.IPNet`, a
      `*net.IPAddr`, or an address of some other dynamic type. */
  datatype Addr = IPNet(ip: IP) | IPAddr(ip: IP) | OtherAddr

  /** Outcome of `os.Lstat("/sys/class/net/<name>/wireless/")`. */
  datatype Stat = StatFailed | Stat(isDir: bool)

  /** An enumerated network interface with the answers the OS would give
      about it. */
  datatype Iface = Iface(name: string, wirelessDir: Stat, addrs: Result<seq<Addr>>)

  /** The interface has a wireless directory: the stat succeeded and names a
      directory. */
  predicate IsWireless(f: Iface) {
    f.wirelessDir == Stat(true)
  }

  /** The three results of `findWirelessIP`, as Go returns them. */
  datatype Outcome = Outcome(wlan: string, ip: IP, err: Option<Error>)

  /** The triple every error exit returns: empty name, nil IP, the error. */
  function Failed(e: Error): Outcome {
    Outcome("", NilIP, Some(e))
  }

  /** An operating-system call made by the selection rule; interfaces are
      named by their position in the enumeration. */
  datatype OsCall = Enumerate | Lstat(index: nat) | Addrs(index: nat)

  lemma ErrorMessagesDistinct()
    ensures Qqget(UnsupportedOS).Message() != Qqget(MoreThanOneWlan).Message()
    ensures Qqget(UnsupportedOS).Message() != Qqget(NonWlan).Message()
    ensures Qqget(MoreThanOneWlan).Message() != Qqget(NonWlan).Message()
  {
  }
}
