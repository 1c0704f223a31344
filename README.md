# oidentd request handling, modelled in Dafny

oidentd is an ident server (RFC 1413). A client that holds a TCP connection
to this host asks "who owns the connection from port L here to port F on your
side?". It sends one line `L , F` and gets back one reply line:
`L,F:USERID:<os>:<user>` or `L,F:ERROR:<token>`.

This project models the daemon's request path and its connection limit, with
the OpenBSD kernel backend:

- **Wire** (`wire.dfy`): the `sscanf("%d , %d")` scan of the request line and
  the `%d,%d:...\r\n` reply lines.
- **Inet** (`inet.dfy`): IPv4 and IPv6 socket addresses; the IPv4-mapped IPv6
  form `::ffff:a.b.c.d` (`sin_extractv4`, `sin_mapv4to6`); `htons`/`ntohs`.
- **Options** (`options.dfy`): the option flags the core reads (PROXY, MASQ,
  FORWARD, MASQ_OVERRIDE) and the configuration values (proxy address,
  fallback user, reported operating system, host byte order).
- **OpenBSD** (`openbsd.dfy`): the kernel backend.
  - `getlist4` walks the kernel's list of TCP control blocks.
  - `get_user4` turns the matched socket into its owner.
  - `get_user6` asks the `TCPCTL_IDENT` sysctl.
  - `masq` walks the NAT table, then forwards the query to the masqueraded
    host, or answers from the operator's table of NAT users.
  - `k_open` drops MASQ when the NAT symbol resolves to 0.
  - Kernel memory is a value. A list is `None` when its head cannot be read;
    a record is `None` when it cannot be read.
- **Service** (`service.dfy`): `service_request`.
  - Verbatim steps: read both addresses, rewrite an IPv4-mapped local
    address, parse, validate the ports.
  - The owner cascade: direct IPv4, mapped IPv6, native IPv6, then NAT. Each
    lookup runs only while no owner has been found.
  - Then the reply.
  - `ServiceRequest` reassigns `con_uid` step by step, as the C code does. It
    is proved equal to the declarative `ServiceOutcome`.
  - `Cascade` is the reference definition of "first lookup that finds an
    owner".
  - The outcome records what was sent and which lookups ran, in order.
- **Daemon** (`daemon.dfy`): the `current_connections` counter.
  - The accept loop increments it below `connection_limit`.
  - `sig_child` decrements it once per reaped child, as a u_int32_t.
  - Children still running and children exited but not yet reaped stand for
    the process table. `Server.ChildExit` is the event of a child exiting.

Ports in kernel records and in lookups are in network byte order. Conversion
is `Inet.HostNet`, which swaps the two octets on a little-endian host and is
the identity otherwise. `htons` and `ntohs` are the same map.

## Model

| member | source | states |
|---|---|---|
| Common.IntToUid | src/kernel/openbsd.c:380-381 | The signed `tir.ruid` read as a `uid_t`: equal for non-negative values, plus 2^32 for negative ones |
| Inet.ExtractV4 | src/oidentd.c:252-256 | The IPv4 address is the last four octets of the IPv6 one |
| Inet.IsV4Mapped | src/oidentd.c:247-248 | `IN6_IS_ADDR_V4MAPPED`: the first twelve octets are the `::ffff:` prefix; `Inet.MapV4To6` and `Inet.MapExtractRoundTrip` relate it to the IPv4 address |
| Inet.MapV4To6 | src/oidentd.c:315-319 | The result is IPv4-mapped and gives back the IPv4 address it was built from |
| Inet.MapExtractRoundTrip | src/oidentd.c:247-257 | Mapping back the IPv4 part of a mapped address gives the address itself |
| Inet.MapV4To6Injective | src/oidentd.c:311-322 | Two IPv4 addresses have the same mapped form exactly when they are equal |
| Inet.HostNet | src/oidentd.c:304 | On a little-endian host the two octets of the port are swapped; otherwise the port is unchanged |
| Inet.HostNetInvolutive | src/kernel/openbsd.c:292-295 | Converting twice gives the original port, so `htons` and `ntohs` undo each other |
| Inet.HostNetMovesPort | src/kernel/openbsd.c:292-293 | On a little-endian host the conversion changes every port whose two octets differ |
| Wire.SkipSpace | src/oidentd.c:271 | A white-space directive strips exactly the leading white-space run |
| Wire.DigitRun | src/oidentd.c:271 | The length of the leading run of decimal digits |
| Wire.ScanInt | src/oidentd.c:271 | A `%d` conversion consumes a proper non-empty prefix and leaves the rest of the input |
| Wire.ScanDigits | src/oidentd.c:271 | Definition: the value of the leading digit run and the rest of the input; its values are pinned down by `Wire.ScanDigitsOfPrinted` |
| Wire.ScanSigned | src/oidentd.c:271 | Definition: an optional sign followed by a digit run, as `%d` reads after white space; see `Wire.ScanSignedOfPrinted` and `Wire.NegativeScan` |
| Wire.ParseRequest | src/oidentd.c:271-275 | Definition of `sscanf(buf, "%d , %d")` yielding two conversions; its properties are `Wire.ParseRequestOfPrinted`, `Wire.ParseRequestNeedsComma` and `Wire.ParseRequestByParts` |
| Wire.ValidPort | src/oidentd.c:277 | `VALID_PORT`, taken as 1..65535; `Service.InvalidPortEchoed` states what a port outside it gets |
| Wire.NatToString | src/oidentd.c:278-279 | `%d` of a natural number: non-empty decimal digits, no leading zero, whose value is the number |
| Wire.IntToString | src/oidentd.c:278-279 | `%d` of any int is non-empty and starts with no white space |
| Wire.ReplyLine | src/oidentd.c:373-374 | Every reply line ends in CR-LF |
| Wire.ScanIntOfPrinted | src/oidentd.c:271 | `%d` reads back any printed int after any white space, when the next character is not a digit |
| Wire.ParseRequestOfPrinted | src/oidentd.c:271-275 | `"%d , %d"` reads back any two printed ints around the comma, with any white space before each number and the comma, and ignores any rest that does not start with a digit |
| Wire.ParseRequestNeedsComma | src/oidentd.c:271-275 | A line without a comma never yields two conversions |
| Wire.ReplyEchoesPorts | src/oidentd.c:373-374 | The head of every reply line parses back to the two ports it answers |
| Wire.ScanDigitsOfPrinted | src/oidentd.c:271 | The digit run of a printed natural number reads back as that number, leaving the rest untouched |
| Wire.ScanSignedOfPrinted | src/oidentd.c:271 | An optionally signed printed int reads back as that int when no digit follows it |
| Wire.NonNegativeScan | src/oidentd.c:271 | A printed natural number with no sign reads back as itself |
| Wire.NegativeScan | src/oidentd.c:271 | A minus sign before a printed positive number reads back as its negation |
| Wire.ParseRequestByParts | src/oidentd.c:271-275 | Two conversions around a comma, with white space before the comma, make the request parse to those two numbers |
| Wire.ParseTightRequest | src/oidentd.c:271-275 | `"<l>,<f>"` with no white space, followed by a non-digit, parses back to the pair |
| Wire.ExampleRequest | src/oidentd.c:271 | `"4321, 23\r\n"` parses to (4321, 23) |
| Wire.ExampleUserIdReply | src/oidentd.c:373-374 | The USERID line for 4321, 23, UNIX, alice is `"4321,23:USERID:UNIX:alice\r\n"` |
| Wire.ExampleInvalidPortReply | src/oidentd.c:277-279 | The INVALID-PORT line for 99999, 23 is `"99999,23:ERROR:INVALID-PORT\r\n"` |
| OpenBSD.ScanPcbsFirstMatch | src/kernel/openbsd.c:158-184 | The walk finds a socket exactly when some record matches and every record before it was read and did not match; that socket belongs to the first such record |
| OpenBSD.ScanPcbs | src/kernel/openbsd.c:158-184 | Reference definition of the pcb walk: the socket of the first matching record, stopping at the first unreadable one; characterised by `OpenBSD.ScanPcbsFirstMatch` |
| OpenBSD.FailedReadEndsScan | src/kernel/openbsd.c:160-161 | An unreadable record ends the walk: records after it never matter |
| OpenBSD.ProxyIgnoresAddresses | src/kernel/openbsd.c:163-171 | With PROXY on, a query from the proxy to another local address gives the same answer on any two tables whose records agree in readability, ports and socket, whatever their addresses |
| OpenBSD.PcbMatches | src/kernel/openbsd.c:163-179 | Definition of the getlist4 match test: equal ports, and equal addresses or the proxy relaxation; used by `OpenBSD.ScanPcbsFirstMatch` and `OpenBSD.ProxyIgnoresAddresses` |
| OpenBSD.GetList4 | src/kernel/openbsd.c:146-185 | The loop returns none for a null table, and otherwise the socket of the first matching record before the first unreadable one |
| OpenBSD.Owner4FirstConnectedMatch | src/kernel/openbsd.c:211-228 | An owner u is found exactly when the table reads, a first match exists, its `inp_socket` is not NULL, the socket reads, has SS_CONNECTOUT and has `so_ruid` u |
| OpenBSD.Owner4 | src/kernel/openbsd.c:211-228 | Reference definition of what `get_user4` reports, MISSING_UID for an unreadable table, no match, a NULL socket, an unreadable socket or one not connected out; characterised by `OpenBSD.Owner4FirstConnectedMatch` and computed by `OpenBSD.GetUser4` |
| OpenBSD.GetUser4 | src/kernel/openbsd.c:202-229 | `get_user4` returns that owner, and MISSING_UID on every failure path, including a NULL `sockp` |
| OpenBSD.GetUser6 | src/kernel/openbsd.c:343-387 | An owner is returned exactly when both `ss_len` fit, the sysctl succeeds and `ruid` is not -1; it is `ruid` as a uid and never 0xFFFFFFFF |
| OpenBSD.StepSkipsExactlyUnmatched | src/kernel/openbsd.c:269-290 | A NAT entry is skipped exactly when it fails the protocol, port or address tests (with the PROXY relaxation for the foreign address) |
| OpenBSD.NatMatches | src/kernel/openbsd.c:269-290 | Definition of the `continue` filter of the NAT walk: TCP, both outside ports, the outside address, and the remote address or the proxy relaxation; `OpenBSD.StepSkipsExactlyUnmatched` ties it to the step |
| OpenBSD.StepOverrideAnswers | src/kernel/openbsd.c:299-328 | A matched entry with an operator entry always answers USERID with the operator's os and user, after the relayed answer when forwarding was tried and succeeded |
| OpenBSD.StepWithoutOverride | src/kernel/openbsd.c:299-313 | A matched entry without an operator entry answers only by a successful forward with FORWARD on; otherwise the walk goes on with the converted ports |
| OpenBSD.ForwardFor | src/kernel/openbsd.c:292-297 | Definition of the forwarded query: the host-order query ports and the converted `nat_inport` and `nat_outport`, to `nat_inip` |
| OpenBSD.StepOf | src/kernel/openbsd.c:269-328 | Definition of one entry of the NAT walk: skipped, matched but unresolved with the converted ports, or handled with what was sent; stated by the three lemmas above |
| OpenBSD.MasqWalk | src/kernel/openbsd.c:260-331 | Definition of the walk as written: an unresolved entry passes its converted ports on to the rest of the walk. Computed by `OpenBSD.Masq` |
| OpenBSD.MasqWalkFixed | src/kernel/openbsd.c:260-331 | The corrected walk (see Findings): every entry compared against the query's own ports. Computed by `OpenBSD.MasqFixed` |
| OpenBSD.MasqOutcome | src/kernel/openbsd.c:238-331 | Definition of `masq` as written: false for a non-IPv4 address or an unreadable list head, otherwise the walk as written |
| OpenBSD.MasqOutcomeFixed | src/kernel/openbsd.c:238-331 | The corrected `masq` (see Findings): the same guards around the corrected walk |
| OpenBSD.MasqWalkSilentUnlessHandled | src/kernel/openbsd.c:260-331 | As written, the walk sends nothing when it returns false, and something when it returns true |
| OpenBSD.MasqFailedReadEndsWalk | src/kernel/openbsd.c:266-267 | As written, an unreadable entry ends the walk with the ports it has reached: the outcome is that of the walk cut off there, and entries after it never matter |
| OpenBSD.MasqWalkBigEndian | src/kernel/openbsd.c:260-331 | On a big-endian host the walk as written and the corrected walk agree on every chain |
| OpenBSD.MasqWalkFixedFirstHandled | src/kernel/openbsd.c:260-331 | The corrected walk answers exactly when some entry before the first unreadable one is handled, sends what the first such entry sends, and sends nothing otherwise |
| OpenBSD.MasqReassignmentCounterexample | src/kernel/openbsd.c:292-293 | A concrete NAT table on which the walk as written answers nothing and the corrected walk answers |
| OpenBSD.Masq | src/kernel/openbsd.c:238-332 | The loop as written, with `lport`/`fport` reassigned inside it, equals the recursive walk as written |
| OpenBSD.MasqFixed | src/kernel/openbsd.c:238-332 | The loop with the query's ports kept equals the corrected walk |
| OpenBSD.KOpen | src/kernel/openbsd.c:86-122 | Status 0 exactly when `kvm_open` and `kvm_nlist` succeed; after both succeed, MASQ is removed exactly when it was on and the NAT symbol resolves to 0; no other option changes |
| Service.Normalize | src/oidentd.c:247-257 | A mapped local address turns both addresses into the IPv4 addresses they carry; any other pair is unchanged |
| Service.Unmap | src/oidentd.c:252-256 | Definition of `sin_extractv4` followed by `sin_setv4`: the IPv4 address carried in the last four octets, with the `sockaddr_in` length |
| Service.ToMapped6 | src/oidentd.c:311-322 | The mapped IPv6 form carries the IPv4 address it was built from |
| Service.UidSteps | src/oidentd.c:303-326 | The owner lookups tried are exactly those whose address test holds |
| Service.UidStepsOrdered | src/oidentd.c:303-326 | They come in the order direct IPv4, mapped IPv6, native IPv6, and never include NAT |
| Service.RunLookup | src/oidentd.c:303-324 | Definition of one owner lookup: `get_user4` or `get_user6` with the ports converted by `htons`, on the rewritten, mapped or accepted addresses |
| Service.Cascade | src/oidentd.c:303-326 | Reference definition of the owner cascade: lookups tried in order until one finds an owner; characterised by `Service.CascadeFirstFound` and `Service.CascadeStopsAtFirstOwner` |
| Service.Respond | src/oidentd.c:334-374 | Definition of the reply rule once the lookups are over; stated case by case by `Service.ResolveNoOwner` and `Service.ResolveOwner`, computed by `Service.Answer` |
| Service.Resolve | src/oidentd.c:303-374 | Definition of what a validated request leads to, with masq as written: the cascade, then NAT when it applies, then the reply |
| Service.NatApplies | src/oidentd.c:327-329 | Definition of when masq is called: MASQ on, no owner found, and an IPv4 local address; `Service.ResolveTraceNat` states when NAT runs |
| Service.ResolveIntended | src/oidentd.c:303-374 | The intended resolution (see Findings): the same with the corrected masq |
| Service.ServiceOutcome | src/oidentd.c:215-382 | Declarative definition of `service_request`: silent without addresses, a line or a parse, INVALID-PORT for a bad port, otherwise `Service.Resolve`; computed by `Service.ServiceRequest` |
| Service.CascadeFirstFound | src/oidentd.c:303-326 | The cascade tries a prefix of the lookups, every lookup but the last missed, and the owner comes from the last one; no owner exactly when all lookups miss, and then all were tried |
| Service.CascadeStopsAtFirstOwner | src/oidentd.c:303-326 | When lookup i is the first to find an owner, the cascade gives that owner after exactly lookups 0..i |
| Service.CascadeUnrolled | src/oidentd.c:303-326 | The cascade equals the chain of three `con_uid == MISSING_UID` tests |
| Service.LookupOwner | src/oidentd.c:291-326 | The statements that reassign `con_uid` compute the cascade and its trace |
| Service.Answer | src/oidentd.c:334-374 | The reply statements compute the reply rule for the cascade's result |
| Service.ServiceRequest | src/oidentd.c:215-382 | The handler, with its early returns and masq as written, produces the outcome of the declarative definition |
| Service.SilentExactlyWithoutRequest | src/oidentd.c:231-275 | Nothing is sent exactly when an address cannot be read, no line arrives, or the line does not parse; then no lookup is made either |
| Service.ResolveAlwaysSends | src/oidentd.c:328-374 | A request with valid ports always gets an answer |
| Service.InvalidPortEchoed | src/oidentd.c:277-285 | A port outside 1..65535 gets the INVALID-PORT line echoing both parsed numbers, and no lookup is made |
| Service.LookupOrder | src/oidentd.c:303-332 | Lookups run in strictly increasing order. Every lookup before the last found no owner. NAT runs exactly when MASQ is on, the local address is IPv4 and every owner lookup missed. Some lookup runs exactly when an address is IPv4 or the accepted one is IPv6 |
| Service.ResolveLookupOrder | src/oidentd.c:303-332 | The same order facts for a tuple already validated |
| Service.NoOwnerReply | src/oidentd.c:328-350 | No owner and no answer from masq as written give USERID with the fallback user when one is set, else NO-USER |
| Service.MasqAnswerIsFinal | src/oidentd.c:328-332 | When masq as written answers, its messages are all that is sent |
| Service.OwnerReply | src/oidentd.c:352-374 | For the first owner found: NO-USER without a passwd entry, HIDDEN-USER when `get_ident` hides the user, else USERID with `ret_os` and the name `get_ident` gives; the trace stops at that lookup |
| Service.ValidRequestResolved | src/oidentd.c:271-303 | Once the line parses and both ports are valid, the handler's outcome is the resolution of the tuple it built |
| Service.ResolveTrace | src/oidentd.c:303-332 | The lookups made are those of the cascade, followed by NAT exactly when NAT is tried |
| Service.RanksOfPrefix | src/oidentd.c:303-332 | A prefix of rank-ordered lookups, with NAT optionally after it, stays in strictly increasing rank |
| Service.ResolveRanks | src/oidentd.c:303-332 | For a validated tuple the lookups come in strictly increasing rank |
| Service.ResolveMisses | src/oidentd.c:303-326 | Every lookup but the last applies to the tuple and found no owner |
| Service.ResolveTraceOrdered | src/oidentd.c:303-332 | Both of the above at once: increasing rank, and only the last lookup may have found an owner |
| Service.ResolveTraceNat | src/oidentd.c:326-332 | NAT is tried exactly when MASQ is on, the local address is IPv4 and every owner lookup missed; some lookup runs exactly when an address is IPv4 or the accepted one is IPv6 |
| Service.ResolveNoOwner | src/oidentd.c:328-350 | For a validated tuple with no owner and no answer from masq as written: USERID with the fallback user when one is set, else NO-USER |
| Service.ResolveMasqFinal | src/oidentd.c:328-332 | For a validated tuple, an answer of masq as written is all that is sent |
| Service.ResolveAsWrittenAndIntended | src/oidentd.c:303-332 | The resolution as written and the intended one make the same lookups; they agree whenever MASQ is off and on every big-endian host |
| Service.ResolveMasqCounterexample | src/oidentd.c:328-350 | A concrete little-endian request, with every owner lookup failing, on which the handler as written answers NO-USER and the intended one answers USERID from the operator entry |
| Service.ResolveOwner | src/oidentd.c:352-374 | For a validated tuple, the first owner found decides the reply (NO-USER, HIDDEN-USER or USERID), and the trace stops at that lookup |
| Service.MappedSessionResolvedAsIPv4 | src/oidentd.c:247-304 | A mapped local address makes the first lookup the direct IPv4 one, on the two IPv4 addresses carried; when it finds an owner nothing else is tried |
| Daemon.Dec32 | src/oidentd.c:419 | The u_int32_t decrement is subtraction modulo 2^32, so 0 wraps to 2^32-1 |
| Daemon.AcceptAsWrittenNext | src/oidentd.c:174-202 | Definition of one ready listener as the loop body is written: the counter incremented before fork and kept on a failed fork |
| Daemon.AcceptNext | src/oidentd.c:174-202 | The corrected step (see Findings): the slot given back when fork fails |
| Daemon.ExitNext | src/oidentd.c:417-419 | Definition of a running child exiting and becoming reapable |
| Daemon.Reap | src/oidentd.c:417-422 | Definition of `sig_child`: one `Dec32` per reapable child; stated by `Daemon.ReapReleasesSlots` |
| Daemon.RoundNext | src/oidentd.c:171-203 | Definition of one pass over the ready listeners with the step as written; stated by `Daemon.RoundKeepsBounded` |
| Daemon.RoundFixedNext | src/oidentd.c:171-203 | The same pass with the corrected step; stated by `Daemon.RoundFixedKeepsInvariants` |
| Daemon.AcceptRespectsLimit | src/oidentd.c:174-202 | For both forms of the step: a connection is refused exactly when accept worked and the counter has reached the limit; AcceptFailed exactly when accept failed; Spawned exactly when accept worked below the limit and fork worked; a refused or failed accept changes nothing; the counter never exceeds the limit, and no step changes the limit. A spawned child takes one slot in either form; as written, every accept below the limit takes one slot, and fork failure leaves it taken |
| Daemon.AcceptKeepsExact | src/oidentd.c:181-202 | The corrected step keeps the counter equal to the number of unreaped children |
| Daemon.ForkFailureLeaksSlot | src/oidentd.c:186-202 | As written, a failed fork leaves the counter one above the number of unreaped children |
| Daemon.ExitKeepsExact | src/oidentd.c:418-419 | A child exiting keeps the counter exact |
| Daemon.ReapReleasesSlots | src/oidentd.c:418-419 | Reaping subtracts exactly the reaped children without wrapping, leaves none reapable, and keeps both invariants |
| Daemon.RoundKeepsBounded | src/oidentd.c:171-203 | The loop as written keeps the counter within the limit and above the children. The counter grows by one per Spawned and one per ForkFailed action, the running children by one per Spawned. From an exact counter it stays exact exactly when no fork failed |
| Daemon.RoundFixedKeepsInvariants | src/oidentd.c:171-203 | The pass with the corrected step keeps both invariants, and the counter grows by the number of Spawned actions |
| Daemon.ForkFailureBlocksService | src/oidentd.c:181-202 | With limit 1, after one failed fork and a reap the next connection is refused as written; the corrected step serves it |
| Daemon.LimitTwoScenario | src/oidentd.c:181-186 | With limit 2 the third connection is refused as written, and served once a child has exited and been reaped |
| Daemon.LeakedSlotIsStuck | src/oidentd.c:171-203 | With limit 1 and the slot leaked, no child is left to exit or reap, and every later pass over the listeners refuses or fails every connection and leaves the counters unchanged |
| Daemon.Server.constructor | src/oidentd.c:67 | The counter starts at 0, exactly counting no children |
| Daemon.Server.AcceptAsWritten | src/oidentd.c:174-202 | One ready listener as the loop body is written |
| Daemon.Server.Accept | src/oidentd.c:174-202 | One ready listener, with the slot given back when fork fails |
| Daemon.Server.ServeReady | src/oidentd.c:171-203 | The loop over the ready listeners, with the loop body as written, computes one pass of as-written accept steps (`RoundNext`) |
| Daemon.Server.ChildExit | src/oidentd.c:417-419 | The event of a child exiting: the new state is `ExitNext` of the old |
| Daemon.Server.SigChild | src/oidentd.c:417-422 | The `waitpid` loop decrements the counter once per reapable child |

## Left out

- Parsing of options and configuration, syslog, daemonizing, privilege drop,
  and the UDB lookup at src/oidentd.c:293-301: the lookup chain starts with
  `con_uid` at MISSING_UID.
- `kvm_open`, `kvm_nlist` and `kvm_read` are foreign calls. `k_open` receives
  their outcomes as parameters. Kernel memory is a value.
- `select`, `accept`, `fork`, `alarm` and the asynchronous delivery of
  signals are left out. The counter changes are modelled as sequential
  events. `sig_hup`, `sig_segv`, `sig_alarm`, `seed_prng` and
  `copy_pw`/`free_pw` (memory management) are not modelled.
- `getpeername`, `getsockname` and `sock_read` are inputs of a session.
  `sock_read`'s 128-byte buffer is not modelled: the line is taken as read.
  `get_hostname`, `get_ip` and the log calls are I/O only.
- `getpwuid`, `get_ident`, `find_masq_entry`, `fwd_request` and the
  `TCPCTL_IDENT` sysctl are parameters. `fwd_request` is reduced to
  succeeded or failed; the answer it relays is a `Relayed` marker.
- Wire.ScanInt: `%d` overflow of an out-of-range number is not modelled.
  Numbers are unbounded, so such a request gets INVALID-PORT with its
  numbers as read.
- Wire.ErrorToken: `ERROR()` is defined outside the modelled files. It is
  taken to give the token itself.
- Common.IntToUid: MISSING_UID is a tag (`None`), not the `uid_t` value -1.
  A kernel record whose `so_ruid` is 0xFFFFFFFF is therefore an owner here.
- OpenBSD.GetUser6: `ss_len` is a u_int8_t, so the guard `ss_len > sizeof(tir.faddr)`
  (src/kernel/openbsd.c:361 and 371) can never hold; the model keeps the guard
  but its MISSING_UID branch is unreachable, as in the source.
- OpenBSD.Masq: masq writes its reply to `insock` (src/oidentd.c:330) and every
  other reply goes to `outsock`; the two differ only in STDIO mode, and the
  model has one output stream.
- WANT_IPV6 and MASQ_SUPPORT are assumed compiled in.
- The helpers of `inet_util` are modelled only through what the handler uses
  of them.
- OpenBSD.ForwardFor: `masq_fport` is taken from `nat_outport` as written
  (src/kernel/openbsd.c:295). The source may mean `nat_oport`; nothing here
  decides which.

## Findings

The handler, the accept loop and their lemmas model the code as written.
The corrected members exist beside them, with the intended property proved.

| source | as written | input that shows it | evidently intended | confidence | as-written member | corrected member |
|---|---|---|---|---|---|---|
| src/kernel/openbsd.c:292-293 | `lport = ntohs(lport); fport = ntohs(fport);` inside the NAT loop, so after a matched but unresolved entry the later entries are compared against host-order ports | little-endian host. Two TCP entries for one outside connection (outside ports 1000 and 2000): the first with no operator entry and FORWARD off, the second with an operator entry for bob. As written nothing is answered, and `service_request` replies `1000,2000:ERROR:NO-USER` | every entry compared against the query's own network-order ports, so the second entry answers `1000,2000:USERID:UNIX:bob` | not executed | OpenBSD.Masq, OpenBSD.MasqReassignmentCounterexample, Service.ResolveMasqCounterexample | OpenBSD.MasqFixed, OpenBSD.MasqWalkFixedFirstHandled, Service.ResolveIntended |
| src/oidentd.c:186-202 | `++current_connections` before `fork()`, and no decrement when `fork()` returns -1 | limit 1, one connection whose fork fails: the counter stays at 1 with no child to reap, and every later connection is refused | the slot given back when no child was created | not executed | Daemon.Server.AcceptAsWritten, Daemon.ForkFailureBlocksService, Daemon.LeakedSlotIsStuck, Daemon.RoundKeepsBounded | Daemon.Server.Accept, Daemon.AcceptKeepsExact, Daemon.RoundFixedKeepsInvariants |
