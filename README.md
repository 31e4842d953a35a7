# qrget: wireless-interface selection and start-up decisions

qrget shares one file or directory over HTTP on the machine's wireless
interface and shows the URL as a QR code in a small window until a timeout or
the window is closed. This project models the program's decision logic and
proves properties of it:

- `findWirelessIP`, the rule that picks the wireless interface whose address
  is advertised. It appears twice: in `wip_linux.go` (module `WipLinux`) and in
  `main.go` behind a `runtime.GOOS` guard (module `Qrget`). The rule walks the
  enumerated interfaces in order. It skips every interface whose
  `/sys/class/net/<name>/wireless/` stat fails or is not a directory. It fails
  on reaching a second wireless interface. It returns the address-listing
  error of the first wireless interface as soon as that occurs. It fails when
  there is no wireless interface. Otherwise it returns the interface's name
  and the IP of its first address only, which is nil when the list is empty
  or the first address is neither an `IPNet` nor an `IPAddr`.
- The serving mode chosen from the number of positional arguments, the URL
  `http://<ip>:<port>/`, and the order of `main`'s start-up steps
  (arguments, then interface selection, then port, then URL).

Layout:

- `host.dfy` (module `Host`): what the operating system reports, as values.
  An interface is its name, the outcome of the stat, and the outcome of its
  address listing. The errors are the program's own string error `errQqget`
  and the errors handed back from OS calls. `OsCall` names the calls the rule
  makes: the enumeration, a stat, an address listing.
- `selection.dfy` (module `Selection`): the rule stated declaratively
  (`Resolve`, with `NextWireless` finding the first wireless interface from a
  position) and the calls it makes (`ExpectedCalls`). A second, independent
  statement by counting (`ByCount` over `Wireless`, the wireless interfaces in
  order) is proved equal to it, and most of the properties below are proved
  from it; the rest are proved from `Resolve` and `NextWireless` directly.
- `wip_linux.dfy` (module `WipLinux`): the loop itself, with the Go
  variables `wlanFound`, `wlan` and `ip`, its early returns, and a ghost trace
  of the OS calls. It is proved to return `Resolve` and to make exactly
  `ExpectedCalls`. The Go range loop over the addresses always breaks after
  its first iteration, so it is written as a test of the first address.
- `main.dfy` (module `Qrget`): the guarded `findWirelessIP`, the argument
  switch, `%d` formatting with a reader proved to invert it, the URL with an
  independent reader proved to give back host, port and path, and the
  start-up sequence `Start`.

Inputs in place of OS calls: the result of `net.Interfaces`, each interface's
stat outcome and address-listing outcome, `runtime.GOOS`, the result of
`os.Getwd`, the positional arguments, the result of `freeport.GetFreePort`,
and the textual form of an IP (`net.IP.String`, library code), passed to
`Start` as a function.

Three behaviours of the code that are easy to assume otherwise:

- The URL path is always `/`. The file name is never part of it.
- The rule takes the first address whatever its family. It does not look
  further for an IPv4 or IPv6 address. A first address of another type gives
  success with a nil IP, not an error.
- The URL puts the IP text between the scheme and the port as it is, without
  brackets. When the first address is IPv6 the URL reads, for example,
  `http://fe80::1:8080/`. Section 3.2.2 of RFC 3986 admits a `:` in a host
  only inside brackets, and its port is digits only, so a strict reader
  rejects this URL, and one that ends the host at the first `:` gets
  `fe80`. Either way the IP text is not recovered. The model keeps the URL
  as the code writes it and proves the second case
  (`UnbracketedHostTruncated`); the reader `ParseUrl` is more lenient still
  and splits the port off at the last `:`.

`main.go` and `wip_linux.go` both declare `findWirelessIP` in package
`main`. The `_linux.go` suffix is a Go build constraint, so on a Linux build
both files are compiled and the two declarations clash; on any other
platform only the `main.go` one is compiled. They are two alternative
revisions of the same function, so the model keeps them apart, one per
module. After its guard, the
`main.go` version runs the same loop, so `Qrget.FindWirelessIP` calls
`WipLinux.FindWirelessIP`.

## Model

| member | source | states |
|---|---|---|
| `Host.Error.Message` | main.go:29-33 | `errQqget.Error` gives back the string the error was made from, so the error is recovered from its message |
| `Host.ErrorMessagesDistinct` | main.go:60-111 | the unsupported-OS, more-than-one-wlan and non-wlan errors have pairwise distinct messages, so the three failures are told apart |
| `Selection.FirstIP` | wip_linux.go:42-52 | the defining function of the address loop: a non-nil IP is the IP of the first address, which is an `IPNet` or an `IPAddr`, and such a first address always gives its IP; `FirstAddressWins` states the rest |
| `Selection.Resolve` | wip_linux.go:14-61 | the defining function of the selection rule: every error exit returns empty name and nil IP; an enumeration error is returned as it is; the program's own errors are only the non-wlan and more-than-one errors; a success names a wireless interface. `ResolveByCount` and the lemmas below state the rest |
| `Selection.ExpectedCalls` | wip_linux.go:16-37 | the defining function of the OS-call trace: the enumeration always comes first, alone when it fails; otherwise at most the enumeration, one stat per interface and one address listing. `OnlyFirstWirelessListed` and `WipLinux.FindWirelessIP` state the rest |
| `Selection.NextWireless` | wip_linux.go:24-35 | the search returns a position at or after its start; a position before the end holds an interface whose stat succeeded and names a directory |
| `Selection.ResolveByCount` | wip_linux.go:14-61 | the rule's outcome equals the counting statement over the wireless interfaces alone: none is the non-wlan error; for the first one, a failed address listing returns that error; otherwise two or more is the more-than-one error and exactly one gives its name and first IP |
| `Selection.NonWirelessIgnored` | wip_linux.go:25-29 | inserting an interface whose stat fails or is not a directory, anywhere in the enumeration, leaves the outcome unchanged |
| `Selection.NoWirelessIffNonWlan` | wip_linux.go:56-58 | the outcome is the non-wlan error exactly when no interface is wireless, and then it is that error with empty name and nil IP |
| `Selection.SingleWirelessSelected` | wip_linux.go:29-60 | with exactly one wireless interface whose address listing succeeds, the outcome is its name and the IP of its first address, with no error |
| `Selection.SuccessOnlyWithOneWireless` | wip_linux.go:29-60 | a successful outcome implies exactly one wireless interface, that its listing succeeded, and that its name and first IP are returned |
| `Selection.SeveralWirelessRefused` | wip_linux.go:30-40 | with two or more wireless interfaces the outcome is the more-than-one error, unless the first one's address listing fails, whose error is then returned |
| `Selection.FirstAddrsErrorPropagated` | wip_linux.go:37-40 | when the first wireless interface's address listing fails, that error is returned unchanged whatever interfaces follow, a second wireless one included |
| `Selection.OtherAddrsIrrelevant` | wip_linux.go:30-40 | replacing the address listing of any interface other than the first wireless one leaves the outcome unchanged |
| `Selection.OnlyFirstWirelessListed` | wip_linux.go:30-37 | the calls made ask for the address list of exactly the first wireless interface, or of none when there is none, so a second wireless interface's addresses are never listed |
| `Selection.FirstAddressWins` | wip_linux.go:42-52 | only the first address counts: later addresses never change the IP, a first `IPNet`/`IPAddr` gives its IP and a first address of another type gives nil |
| `WipLinux.FindWirelessIP` | wip_linux.go:14-61 | the loop returns exactly the declarative outcome (enumeration error unchanged with empty name and nil IP; otherwise as `Resolve`) and makes exactly the expected OS calls, in order |
| `Qrget.ResolveOn` | main.go:60-64 | the defining function of the guarded `findWirelessIP`: off Linux, the unsupported-OS error whatever is enumerated; on Linux, the selection rule; so a success happens only on Linux. `Qrget.FindWirelessIP` is proved to return it |
| `Qrget.FindWirelessIP` | main.go:60-111 | off Linux: the unsupported-OS error with empty name and nil IP, and no OS call at all; on Linux: the selection rule's outcome and calls |
| `Qrget.ServingMode` | main.go:123-137 | no argument: directory mode over the working directory, or a panic with the `os.Getwd` error; one argument: file mode over that argument; two or more: the fatal usage error, always with the message `Serving more than one file is not yet supported` |
| `Qrget.WorkdirIgnoredWithArguments` | main.go:126-134 | with an argument, the working directory plays no part in the decision |
| `Qrget.Decimal` | main.go:158 | `%d` of the port is a non-empty string of decimal digits with no leading zero: a leading `0` only in `0` itself, which is exactly the string `"0"` |
| `Qrget.ParseDecimalOfDecimal` | main.go:158 | reading the digits back gives the port |
| `Qrget.Url` | main.go:158 | the defining function of the URL: the scheme `http://` first, `/` last, and the IP text, a `:` and the port digits in between. `UrlRoundTrip` states that it reads back |
| `Qrget.UrlRoundTrip` | main.go:158 | a lenient URL reader that splits the port off at the last `:` gives back, from `http://<ip>:<port>/`, the IP text, the port and the path `/`, for any IP text without `/` |
| `Qrget.UnbracketedHostTruncated` | main.go:158 | when the IP text holds a `:`, as IPv6 text does, a reader that ends an unbracketed host at the first `:` (a strict reader following section 3.2.2 of RFC 3986 rejects such an authority outright) takes only the text before that `:` as the host of `<ip>:<port>`, so it does not get the IP text back |
| `Qrget.Start` | main.go:123-158 | the defining function of the start-up sequence: the fatal usage error exactly with two or more arguments; a ready start-up has the argument switch's target, the allocated port, the selection rule's successful outcome on Linux, and the URL of that IP and port; a panic carries the error of the first failing step, in order the `os.Getwd` error, the selection error, the port-allocation error; and when every step succeeds start-up is ready. The lemmas below state the rest |
| `Qrget.ArgumentsCheckedFirst` | main.go:126-148 | with two or more arguments start-up ends with the usage error before any interface is looked at, whatever the host |
| `Qrget.StartNeedsOneWireless` | main.go:147-158 | start-up reaches serving only on Linux, with a successful enumeration holding exactly one wireless interface, whose name and first IP are used |
| `Qrget.StartReadyOnOneWireless` | main.go:147-158 | on Linux with exactly one wireless interface whose address listing succeeds and a free port, start-up is ready with the argument switch's target, that interface's name and first IP, the port and the URL of that IP and port |
| `Qrget.StartRefusesAmbiguousHost` | main.go:147-151 | on Linux with zero or several wireless interfaces, start-up ends in a panic and nothing is served |
| `Qrget.StartUrlReadsBack` | main.go:153-158 | the URL of a ready start-up reads back as the IP text, the allocated port and the root path |

## Left out

- The three goroutines, the `endChan` channel and the wait for the first signal (main.go:172-231): concurrency and timing (`time.Sleep`, the timeout, the 500 ms poll).
- The HTTP server (`http.FileServer`, `http.ServeFile`, `ListenAndServe`): network I/O through a library that is not part of this model.
- The GUI (`nucular` window, `updatefn`, `Main`/`Closed`/`Close`) and the PNG decoding and drawing in `newQrgetModel`: UI and image-library calls.
- QR encoding (`qrcode.Encode`): a foreign call. `Start` stops at the URL, so an encoding error is not modelled.
- Port allocation (`freeport.GetFreePort`): its result is an input.
- `net.Interfaces`, `os.Lstat`, `iface.Addrs`, `os.Getwd`, `runtime.GOOS`: their results are inputs. The Lstat outcome is reduced to "failed" or "succeeded, directory or not", and OS errors to their text.
- `net.IP.String`: library code. The URL takes the IP's text, and `Start` receives the rendering as a function.
- Flag parsing (`-v`, `-verbose`, `-timeout`) and the verbose log lines: the positional arguments are an input, and logging has no effect on the outcome.
