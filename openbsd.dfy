/** The OpenBSD kernel backend of oidentd: matching a connection against the
    kernel's TCP pcb queue (getlist4, get_user4), asking the kernel for the
    owner of an IPv6 connection (get_user6), walking the IP Filter NAT list
    (masq), and the start-up downgrade of NAT support (k_open).

    Kernel memory is read with kvm_read, which can fail. A kernel list is
    modelled as the sequence of records its links lead through, each of
    which may fail to read; the head of the list may fail to read as well. */
module OpenBSD {
  import opened Common
  import opened Inet
  import opened Options
  import opened Wire

  /** A kernel list as read through kvm_read: None when its head cannot be
      read; an element None when that record cannot be read. */
  type Table<T> = Option<seq<Option<T>>>

  /** The fields of a struct inpcb that getlist4 compares: addresses, ports
      in network byte order, and the kernel address of its socket (0 for
      a NULL inp_socket). */
  datatype Pcb = Pcb(faddr: Ip4, laddr: Ip4, fport: Port16, lport: Port16, socket: nat)

  /** The fields of a struct socket that get_user4 reads. */
  datatype Socket = Socket(state: bv16, ruid: Uid)

  /** SS_CONNECTOUT of OpenBSD's sys/socketvar.h. */
  const SS_CONNECTOUT: bv16 := 0x1000

  const IPPROTO_TCP: nat := 6

  /** sizeof(struct sockaddr_storage): the size of the address buffers of a
      struct tcp_ident_mapping. */
  const SockaddrStorageSize: nat := 256

  /** The struct tcp_ident_mapping passed to sysctl(TCPCTL_IDENT), and the
      call's outcome: failure, or the ruid field filled in by the kernel. */
  datatype TcpIdentQuery = TcpIdentQuery(faddr: Ip6, fport: Port16, laddr: Ip6, lport: Port16)
  datatype TcpIdentReply = SysctlFailed | SysctlOk(ruid: Int32)

  /** The fields of an IP Filter nat_t that masq reads (ports in network
      byte order). */
  datatype NatEntry = NatEntry(
    proto: nat, inIp: Ip4, outIp: Ip4, oIp: Ip4, inPort: Port16, outPort: Port16, oPort: Port16)

  /** The kernel state one request is answered from. */
  datatype Kernel = Kernel(
    tcb: Table<Pcb>,
    sockets: map<nat, Socket>,   // a socket address that is absent cannot be read
    tcpIdent: TcpIdentQuery -> TcpIdentReply,
    natList: Table<NatEntry>)

  /** The operator's entry for a host behind the NAT (find_masq_entry). */
  datatype MasqUser = MasqUser(user: string, os: string)

  /** The collaborators masq calls: find_masq_entry and fwd_request (true
      when the forwarded query succeeded and its answer was relayed). */
  datatype MasqHooks = MasqHooks(
    findMasqEntry: Ip4 -> Option<MasqUser>,
    fwdRequest: ForwardQuery -> bool)

  /** The query of get_user4 and getlist4, ports in network byte order. */
  datatype Query4 = Query4(lport: Port16, fport: Port16, laddr: Ip4, faddr: Ip4)

  // ---------------------------------------------------------------------
  // getlist4
  // ---------------------------------------------------------------------

  /** The proxy relaxation: the query comes from the configured proxy, to a
      local address that is not the proxy. */
  predicate ProxyRelaxed(cfg: Config, laddr: Ip4, faddr: Ip4) {
    Proxy in cfg.enabled && faddr == cfg.proxy && laddr != cfg.proxy
  }

  /** A pcb answers the query when both ports are equal and either both
      addresses are equal or the proxy relaxation holds. */
  predicate PcbMatches(p: Pcb, q: Query4, cfg: Config) {
    p.fport == q.fport && p.lport == q.lport &&
    (ProxyRelaxed(cfg, q.laddr, q.faddr) || (p.faddr == q.faddr && p.laddr == q.laddr))
  }

  /** The reference definition of the queue walk: the socket of the first
      matching pcb, stopping at the first record that cannot be read. */
  function ScanPcbs(t: seq<Option<Pcb>>, q: Query4, cfg: Config): Option<nat> {
    if t == [] then None
    else match t[0]
      case None => None
      case Some(p) => if PcbMatches(p, q, cfg) then Some(p.socket) else ScanPcbs(t[1..], q, cfg)
  }

  /** Record k matches, and every record before it was read and does not. */
  ghost predicate IsFirstMatch(t: seq<Option<Pcb>>, q: Query4, cfg: Config, k: int) {
    0 <= k < |t| && t[k].Some? && PcbMatches(t[k].value, q, cfg) &&
    forall j :: 0 <= j < k ==> t[j].Some? && !PcbMatches(t[j].value, q, cfg)
  }

  /** The walk finds a socket exactly when there is a first match, and the
      socket it finds is that pcb's. */
  lemma {:induction false} ScanPcbsFirstMatch(t: seq<Option<Pcb>>, q: Query4, cfg: Config)
    ensures ScanPcbs(t, q, cfg).Some? <==> exists k :: IsFirstMatch(t, q, cfg, k)
    ensures forall k :: IsFirstMatch(t, q, cfg, k) ==> ScanPcbs(t, q, cfg) == Some(t[k].value.socket)
  {
    if t != [] && t[0].Some? && !PcbMatches(t[0].value, q, cfg) {
      ScanPcbsFirstMatch(t[1..], q, cfg);
      forall k | IsFirstMatch(t, q, cfg, k)
        ensures IsFirstMatch(t[1..], q, cfg, k - 1)
      {
        assert k != 0;
        forall j | 0 <= j < k - 1 ensures t[1..][j] == t[j + 1] { }
      }
      if ScanPcbs(t, q, cfg).Some? {
        var k :| IsFirstMatch(t[1..], q, cfg, k);
        assert IsFirstMatch(t, q, cfg, k + 1);
      }
    } else if t != [] && t[0].Some? {
      assert IsFirstMatch(t, q, cfg, 0);
    }
  }

  /** A record that cannot be read ends the walk with no match, even when a
      later record would have matched. */
  lemma {:induction false} FailedReadEndsScan(t: seq<Option<Pcb>>, q: Query4, cfg: Config, k: nat)
    requires k < |t| && t[k].None?
    requires forall j :: 0 <= j < k ==> t[j].Some? && !PcbMatches(t[j].value, q, cfg)
    ensures ScanPcbs(t, q, cfg) == None
  {
    if k > 0 {
      assert t[1..][k - 1] == t[k];
      assert t[0].Some?;
      FailedReadEndsScan(t[1..], q, cfg, k - 1);
    }
  }

  /** Under the proxy relaxation the addresses stored in the pcbs play no
      part: two queues that agree on readability, ports and sockets give
      the same answer. */
  lemma {:induction false} ProxyIgnoresAddresses(t: seq<Option<Pcb>>, u: seq<Option<Pcb>>, q: Query4, cfg: Config)
    requires ProxyRelaxed(cfg, q.laddr, q.faddr)
    requires |t| == |u|
    requires forall i :: 0 <= i < |t| ==> t[i].Some? == u[i].Some?
    requires forall i :: 0 <= i < |t| && t[i].Some? ==>
      t[i].value.fport == u[i].value.fport && t[i].value.lport == u[i].value.lport &&
      t[i].value.socket == u[i].value.socket
    ensures ScanPcbs(t, q, cfg) == ScanPcbs(u, q, cfg)
  {
    if t != [] {
      ProxyIgnoresAddresses(t[1..], u[1..], q, cfg);
    }
  }

  /** getlist4: the while loop over the pcb queue. table is None for a NULL
      table pointer. */
  method GetList4(table: Option<seq<Option<Pcb>>>, q: Query4, cfg: Config) returns (so: Option<nat>)
    ensures so == (if table.None? then None else ScanPcbs(table.value, q, cfg))
  {
    if table.None? {
      return None;
    }
    var t := table.value;
    var i := 0;
    while i < |t|
      invariant 0 <= i <= |t|
      invariant ScanPcbs(t[i..], q, cfg) == ScanPcbs(t, q, cfg)
    {
      assert t[i..][0] == t[i] && t[i..][1..] == t[i + 1..];
      if t[i].None? {
        break;
      }
      var pcb := t[i].value;
      if Proxy in cfg.enabled {
        if q.faddr == cfg.proxy && q.laddr != cfg.proxy && pcb.fport == q.fport && pcb.lport == q.lport {
          return Some(pcb.socket);
        }
      }
      if pcb.faddr == q.faddr && pcb.laddr == q.laddr && pcb.fport == q.fport && pcb.lport == q.lport {
        return Some(pcb.socket);
      }
      i := i + 1;
    }
    return None;
  }

  // ---------------------------------------------------------------------
  // get_user4
  // ---------------------------------------------------------------------

  /** The socket was connected from this end (so_state has SS_CONNECTOUT). */
  predicate ConnectedOut(s: Socket) {
    s.state & SS_CONNECTOUT != 0
  }

  /** The owner get_user4 reports, None standing for MISSING_UID. */
  function Owner4(k: Kernel, q: Query4, cfg: Config): Option<Uid> {
    if k.tcb.None? then None
    else match ScanPcbs(k.tcb.value, q, cfg)
      case None => None
      case Some(so) =>
        if so != 0 && so in k.sockets && ConnectedOut(k.sockets[so]) then Some(k.sockets[so].ruid) else None
  }

  /** get_user4 finds an owner exactly when the table head reads, there is a
      first matching pcb, its socket reads and is connected from this end;
      the owner is that socket's so_ruid. */
  lemma Owner4FirstConnectedMatch(k: Kernel, q: Query4, cfg: Config, u: Uid)
    ensures Owner4(k, q, cfg) == Some(u) <==>
      k.tcb.Some? &&
      exists i :: IsFirstMatch(k.tcb.value, q, cfg, i) &&
        k.tcb.value[i].value.socket != 0 && k.tcb.value[i].value.socket in k.sockets &&
        ConnectedOut(k.sockets[k.tcb.value[i].value.socket]) &&
        k.sockets[k.tcb.value[i].value.socket].ruid == u
  {
    if k.tcb.Some? {
      ScanPcbsFirstMatch(k.tcb.value, q, cfg);
    }
  }

  /** get_user4 */
  method GetUser4(k: Kernel, q: Query4, cfg: Config) returns (uid: Option<Uid>)
    ensures uid == Owner4(k, q, cfg)
  {
    if k.tcb.None? {
      return None;
    }
    var sockp := GetList4(k.tcb, q, cfg);
    if sockp.None? {
      return None;
    }
    if sockp.value == 0 {
      return None;
    }
    if sockp.value !in k.sockets {
      return None;
    }
    var sock := k.sockets[sockp.value];
    if sock.state & SS_CONNECTOUT == 0 {
      return None;
    }
    return Some(sock.ruid);
  }

  // ---------------------------------------------------------------------
  // get_user6
  // ---------------------------------------------------------------------

  /** get_user6: the ruid the kernel reports for the connection, ports in
      network byte order. None (MISSING_UID) when an address is longer than
      the mapping's buffer, when sysctl fails or when the kernel reports -1. */
  function GetUser6(k: Kernel, lport: Port16, fport: Port16, laddr: SockAddr, faddr: SockAddr): (uid: Option<Uid>)
    requires laddr.ip.V6? && faddr.ip.V6?
    ensures faddr.len > SockaddrStorageSize || laddr.len > SockaddrStorageSize ==> uid.None?
    ensures uid.Some? <==>
      faddr.len <= SockaddrStorageSize && laddr.len <= SockaddrStorageSize &&
      k.tcpIdent(TcpIdentQuery(faddr.ip.v6, fport, laddr.ip.v6, lport)).SysctlOk? &&
      k.tcpIdent(TcpIdentQuery(faddr.ip.v6, fport, laddr.ip.v6, lport)).ruid != -1
    ensures uid.Some? ==>
      uid.value == IntToUid(k.tcpIdent(TcpIdentQuery(faddr.ip.v6, fport, laddr.ip.v6, lport)).ruid)
    ensures uid.Some? ==> uid.value != 0xFFFF_FFFF
  {
    if faddr.len > SockaddrStorageSize then None
    else if laddr.len > SockaddrStorageSize then None
    else
      match k.tcpIdent(TcpIdentQuery(faddr.ip.v6, fport, laddr.ip.v6, lport))
      case SysctlOk(ruid) => if ruid != -1 then Some(IntToUid(ruid)) else None
      case SysctlFailed => None
  }

  // ---------------------------------------------------------------------
  // masq
  // ---------------------------------------------------------------------

  /** The filter of the NAT walk: a TCP entry whose outside ports and
      outside local address are the query's, and whose remote address is
      the query's or the proxy relaxation holds. */
  predicate NatMatches(e: NatEntry, lport: Port16, fport: Port16, laddr: Ip4, faddr: Ip4, cfg: Config) {
    e.proto == IPPROTO_TCP && lport == e.outPort && fport == e.oPort && laddr == e.outIp &&
    (faddr == e.oIp || ProxyRelaxed(cfg, laddr, faddr))
  }

  /** What one entry of the walk does: skipped by the filter, matched but
      left unresolved (with the ports as converted to host order), or
      handled with what was sent to the client. */
  datatype NatStep = Skip | Unresolved(lport: Port16, fport: Port16) | Handled(out: seq<Emitted>)

  /** The outcome of masq: whether it answered, and what it sent. */
  datatype MasqResult = MasqResult(handled: bool, out: seq<Emitted>)

  /** The forwarded query for a matched entry, given the query's ports in
      host byte order. */
  function ForwardFor(e: NatEntry, hostLport: Port16, hostFport: Port16, cfg: Config): ForwardQuery {
    ForwardQuery(hostLport, HostNet(e.inPort, cfg.littleEndian),
                 hostFport, HostNet(e.outPort, cfg.littleEndian), e.inIp)
  }

  /** One entry of the walk, the query's ports given in network order. */
  function StepOf(e: NatEntry, lport: Port16, fport: Port16, laddr: Ip4, faddr: Ip4,
                  cfg: Config, hooks: MasqHooks): NatStep
  {
    if !NatMatches(e, lport, fport, laddr, faddr, cfg) then Skip
    else
      var hl, hf := HostNet(lport, cfg.littleEndian), HostNet(fport, cfg.littleEndian);
      var q := ForwardFor(e, hl, hf, cfg);
      var entry := hooks.findMasqEntry(e.inIp);
      var forwarded :=
        Forward in cfg.enabled && (entry.None? || MasqOverride !in cfg.enabled) && hooks.fwdRequest(q);
      if forwarded && entry.None? then Handled([Relayed(q)])
      else if entry.Some? then
        Handled((if forwarded then [Relayed(q)] else []) +
                [Sent(Reply(hl, hf, UserId(entry.value.os, entry.value.user)))])
      else Unresolved(hl, hf)
  }

  /** The walk as the source performs it: after an unresolved match, later
      entries are compared against the ports as converted to host order. */
  function MasqWalk(chain: seq<Option<NatEntry>>, lport: Port16, fport: Port16, laddr: Ip4, faddr: Ip4,
                    cfg: Config, hooks: MasqHooks): MasqResult
  {
    if chain == [] || chain[0].None? then MasqResult(false, [])
    else match StepOf(chain[0].value, lport, fport, laddr, faddr, cfg, hooks)
      case Skip => MasqWalk(chain[1..], lport, fport, laddr, faddr, cfg, hooks)
      case Unresolved(l, f) => MasqWalk(chain[1..], l, f, laddr, faddr, cfg, hooks)
      case Handled(out) => MasqResult(true, out)
  }

  /** The walk with every entry compared against the query's own ports. */
  function MasqWalkFixed(chain: seq<Option<NatEntry>>, lport: Port16, fport: Port16, laddr: Ip4, faddr: Ip4,
                         cfg: Config, hooks: MasqHooks): MasqResult
  {
    if chain == [] || chain[0].None? then MasqResult(false, [])
    else match StepOf(chain[0].value, lport, fport, laddr, faddr, cfg, hooks)
      case Handled(out) => MasqResult(true, out)
      case _ => MasqWalkFixed(chain[1..], lport, fport, laddr, faddr, cfg, hooks)
  }

  /** masq as written: IPv4 only, and nothing when the list head cannot be read. */
  function MasqOutcome(k: Kernel, lport: Port16, fport: Port16, laddr: SockAddr, faddr: SockAddr,
                       cfg: Config, hooks: MasqHooks): MasqResult
  {
    if !faddr.ip.V4? || !laddr.ip.V4? || k.natList.None? then MasqResult(false, [])
    else MasqWalk(k.natList.value, lport, fport, laddr.ip.v4, faddr.ip.v4, cfg, hooks)
  }

  /** masq with the port comparison corrected. */
  function MasqOutcomeFixed(k: Kernel, lport: Port16, fport: Port16, laddr: SockAddr, faddr: SockAddr,
                            cfg: Config, hooks: MasqHooks): MasqResult
  {
    if !faddr.ip.V4? || !laddr.ip.V4? || k.natList.None? then MasqResult(false, [])
    else MasqWalkFixed(k.natList.value, lport, fport, laddr.ip.v4, faddr.ip.v4, cfg, hooks)
  }

  /** The filter decides whether an entry is considered at all. */
  lemma StepSkipsExactlyUnmatched(e: NatEntry, lport: Port16, fport: Port16, laddr: Ip4, faddr: Ip4,
                                  cfg: Config, hooks: MasqHooks)
    ensures StepOf(e, lport, fport, laddr, faddr, cfg, hooks) == Skip <==>
      !NatMatches(e, lport, fport, laddr, faddr, cfg)
  {
  }

  /** A matched entry with an operator entry always answers, with the
      operator's os and user, after the forwarded answer when forwarding was
      tried (FORWARD on and MASQ_OVERRIDE off) and succeeded. */
  lemma StepOverrideAnswers(e: NatEntry, lport: Port16, fport: Port16, laddr: Ip4, faddr: Ip4,
                            cfg: Config, hooks: MasqHooks)
    requires NatMatches(e, lport, fport, laddr, faddr, cfg)
    requires hooks.findMasqEntry(e.inIp).Some?
    ensures var m := hooks.findMasqEntry(e.inIp).value;
      var hl, hf := HostNet(lport, cfg.littleEndian), HostNet(fport, cfg.littleEndian);
      var q := ForwardFor(e, hl, hf, cfg);
      StepOf(e, lport, fport, laddr, faddr, cfg, hooks) ==
        Handled((if Forward in cfg.enabled && MasqOverride !in cfg.enabled && hooks.fwdRequest(q)
                 then [Relayed(q)] else []) +
                [Sent(Reply(hl, hf, UserId(m.os, m.user)))])
  {
  }

  /** A matched entry without an operator entry answers exactly when
      forwarding is enabled and the forwarded query succeeds; otherwise the
      walk goes on with the ports converted to host order. */
  lemma StepWithoutOverride(e: NatEntry, lport: Port16, fport: Port16, laddr: Ip4, faddr: Ip4,
                            cfg: Config, hooks: MasqHooks)
    requires NatMatches(e, lport, fport, laddr, faddr, cfg)
    requires hooks.findMasqEntry(e.inIp).None?
    ensures var hl, hf := HostNet(lport, cfg.littleEndian), HostNet(fport, cfg.littleEndian);
      var q := ForwardFor(e, hl, hf, cfg);
      StepOf(e, lport, fport, laddr, faddr, cfg, hooks) ==
        if Forward in cfg.enabled && hooks.fwdRequest(q) then Handled([Relayed(q)])
        else Unresolved(hl, hf)
  {
  }

  /** When masq does not answer it sends nothing. */
  lemma {:induction false} MasqWalkSilentUnlessHandled(chain: seq<Option<NatEntry>>, lport: Port16, fport: Port16,
                                                       laddr: Ip4, faddr: Ip4, cfg: Config, hooks: MasqHooks)
    ensures !MasqWalk(chain, lport, fport, laddr, faddr, cfg, hooks).handled ==>
      MasqWalk(chain, lport, fport, laddr, faddr, cfg, hooks).out == []
    ensures MasqWalk(chain, lport, fport, laddr, faddr, cfg, hooks).handled ==>
      MasqWalk(chain, lport, fport, laddr, faddr, cfg, hooks).out != []
  {
    if chain != [] && chain[0].Some? {
      match StepOf(chain[0].value, lport, fport, laddr, faddr, cfg, hooks)
      case Skip => MasqWalkSilentUnlessHandled(chain[1..], lport, fport, laddr, faddr, cfg, hooks);
      case Unresolved(l, f) => MasqWalkSilentUnlessHandled(chain[1..], l, f, laddr, faddr, cfg, hooks);
      case Handled(out) =>
    }
  }

  /** An entry that cannot be read ends the walk as written: whatever the
      ports have become by then, a walk cut off at that entry, and one with
      any other entries after it, gives the same outcome. */
  lemma {:induction false} MasqFailedReadEndsWalk(chain: seq<Option<NatEntry>>, u: seq<Option<NatEntry>>,
                                                  lport: Port16, fport: Port16, laddr: Ip4, faddr: Ip4,
                                                  cfg: Config, hooks: MasqHooks, k: nat)
    requires k < |chain| && chain[k].None?
    ensures MasqWalk(chain, lport, fport, laddr, faddr, cfg, hooks) ==
      MasqWalk(chain[..k], lport, fport, laddr, faddr, cfg, hooks)
    ensures MasqWalk(chain[..k + 1] + u, lport, fport, laddr, faddr, cfg, hooks) ==
      MasqWalk(chain, lport, fport, laddr, faddr, cfg, hooks)
  {
    var cut, other := chain[..k], chain[..k + 1] + u;
    assert other[0] == chain[0];
    if k > 0 && chain[0].Some? {
      assert cut[0] == chain[0];
      assert cut[1..] == chain[1..][..k - 1];
      assert other[1..] == chain[1..][..k] + u;
      match StepOf(chain[0].value, lport, fport, laddr, faddr, cfg, hooks)
      case Skip => MasqFailedReadEndsWalk(chain[1..], u, lport, fport, laddr, faddr, cfg, hooks, k - 1);
      case Unresolved(l, f) => MasqFailedReadEndsWalk(chain[1..], u, l, f, laddr, faddr, cfg, hooks, k - 1);
      case Handled(out) =>
    }
  }

  /** On a big-endian host the conversion is the identity, so the walk as
      written and the corrected walk agree on every chain. */
  lemma {:induction false} MasqWalkBigEndian(chain: seq<Option<NatEntry>>, lport: Port16, fport: Port16,
                                             laddr: Ip4, faddr: Ip4, cfg: Config, hooks: MasqHooks)
    requires !cfg.littleEndian
    ensures MasqWalk(chain, lport, fport, laddr, faddr, cfg, hooks) ==
      MasqWalkFixed(chain, lport, fport, laddr, faddr, cfg, hooks)
  {
    if chain != [] && chain[0].Some? {
      match StepOf(chain[0].value, lport, fport, laddr, faddr, cfg, hooks)
      case Skip => MasqWalkBigEndian(chain[1..], lport, fport, laddr, faddr, cfg, hooks);
      case Unresolved(l, f) =>
        assert l == lport && f == fport;
        MasqWalkBigEndian(chain[1..], lport, fport, laddr, faddr, cfg, hooks);
      case Handled(out) =>
    }
  }

  /** Entry i is handled, and every entry before it was read and not handled. */
  ghost predicate IsFirstHandled(chain: seq<Option<NatEntry>>, lport: Port16, fport: Port16, laddr: Ip4, faddr: Ip4,
                                 cfg: Config, hooks: MasqHooks, i: int)
  {
    0 <= i < |chain| && chain[i].Some? &&
    StepOf(chain[i].value, lport, fport, laddr, faddr, cfg, hooks).Handled? &&
    forall j :: 0 <= j < i ==> chain[j].Some? && !StepOf(chain[j].value, lport, fport, laddr, faddr, cfg, hooks).Handled?
  }

  /** The corrected walk answers exactly when some entry before the first
      unreadable one is handled for the query's own ports, and sends what
      the first such entry sends; an unmatched or unresolved entry never cuts
      the search short. */
  lemma {:induction false} MasqWalkFixedFirstHandled(chain: seq<Option<NatEntry>>, lport: Port16, fport: Port16,
                                                     laddr: Ip4, faddr: Ip4, cfg: Config, hooks: MasqHooks)
    ensures MasqWalkFixed(chain, lport, fport, laddr, faddr, cfg, hooks).handled <==>
      exists i :: IsFirstHandled(chain, lport, fport, laddr, faddr, cfg, hooks, i)
    ensures forall i :: IsFirstHandled(chain, lport, fport, laddr, faddr, cfg, hooks, i) ==>
      MasqWalkFixed(chain, lport, fport, laddr, faddr, cfg, hooks) ==
        MasqResult(true, StepOf(chain[i].value, lport, fport, laddr, faddr, cfg, hooks).out)
    ensures !MasqWalkFixed(chain, lport, fport, laddr, faddr, cfg, hooks).handled ==>
      MasqWalkFixed(chain, lport, fport, laddr, faddr, cfg, hooks).out == []
    ensures MasqWalkFixed(chain, lport, fport, laddr, faddr, cfg, hooks).handled ==>
      MasqWalkFixed(chain, lport, fport, laddr, faddr, cfg, hooks).out != []
  {
    if chain == [] || chain[0].None? {
    } else if StepOf(chain[0].value, lport, fport, laddr, faddr, cfg, hooks).Handled? {
      assert IsFirstHandled(chain, lport, fport, laddr, faddr, cfg, hooks, 0);
      forall i | IsFirstHandled(chain, lport, fport, laddr, faddr, cfg, hooks, i) ensures i == 0 { }
    } else {
      var rest := chain[1..];
      MasqWalkFixedFirstHandled(rest, lport, fport, laddr, faddr, cfg, hooks);
      forall i | IsFirstHandled(chain, lport, fport, laddr, faddr, cfg, hooks, i)
        ensures IsFirstHandled(rest, lport, fport, laddr, faddr, cfg, hooks, i - 1)
      {
        assert i != 0;
        forall j | 0 <= j < i - 1 ensures rest[j] == chain[j + 1] { }
      }
      if MasqWalkFixed(chain, lport, fport, laddr, faddr, cfg, hooks).handled {
        var i :| IsFirstHandled(rest, lport, fport, laddr, faddr, cfg, hooks, i);
        assert IsFirstHandled(chain, lport, fport, laddr, faddr, cfg, hooks, i + 1);
      }
    }
  }

  /** The source's walk and the corrected one differ. On a little-endian
      host, with two NAT entries for the same outside connection (outside
      ports 1000 and 2000 in host order), the first with neither an operator
      entry nor forwarding and the second with an operator entry: the first
      entry converts the ports, the second is then compared against the
      converted ports and skipped, and masq answers nothing, where the
      corrected walk answers with the operator's entry. */
  lemma MasqReassignmentCounterexample()
    ensures var cfg := Config({Opt.Masq}, [203, 0, 113, 1], None, "UNIX", true);
      var la: Ip4, fa: Ip4 := [198, 51, 100, 1], [192, 0, 2, 7];
      var lport, fport := HostNet(1000, true), HostNet(2000, true);
      var e1 := NatEntry(IPPROTO_TCP, [10, 0, 0, 2], la, fa, HostNet(1000, true), lport, fport);
      var e2 := NatEntry(IPPROTO_TCP, [10, 0, 0, 3], la, fa, HostNet(1000, true), lport, fport);
      var hooks := MasqHooks(ip => if ip == [10, 0, 0, 3] then Some(MasqUser("bob", "UNIX")) else None,
                             q => false);
      MasqWalk([Some(e1), Some(e2)], lport, fport, la, fa, cfg, hooks) == MasqResult(false, []) &&
      MasqWalkFixed([Some(e1), Some(e2)], lport, fport, la, fa, cfg, hooks) ==
        MasqResult(true, [Sent(Reply(1000, 2000, UserId("UNIX", "bob")))])
  {
    var cfg := Config({Opt.Masq}, [203, 0, 113, 1], None, "UNIX", true);
    var la: Ip4, fa: Ip4 := [198, 51, 100, 1], [192, 0, 2, 7];
    var lport, fport := HostNet(1000, true), HostNet(2000, true);
    assert lport == 59395 && fport == 53255;
    HostNetInvolutive(1000, true);
    HostNetInvolutive(2000, true);
    var e1 := NatEntry(IPPROTO_TCP, [10, 0, 0, 2], la, fa, HostNet(1000, true), lport, fport);
    var e2 := NatEntry(IPPROTO_TCP, [10, 0, 0, 3], la, fa, HostNet(1000, true), lport, fport);
    var hooks := MasqHooks(ip => if ip == [10, 0, 0, 3] then Some(MasqUser("bob", "UNIX")) else None,
                           q => false);
    assert hooks.findMasqEntry([10, 0, 0, 2]) == None;
    assert hooks.findMasqEntry([10, 0, 0, 3]) == Some(MasqUser("bob", "UNIX"));
    assert StepOf(e1, lport, fport, la, fa, cfg, hooks) == Unresolved(1000, 2000);
    assert StepOf(e2, 1000, 2000, la, fa, cfg, hooks) == Skip;
    assert StepOf(e2, lport, fport, la, fa, cfg, hooks) ==
      Handled([Sent(Reply(1000, 2000, UserId("UNIX", "bob")))]);
    var chain := [Some(e1), Some(e2)];
    assert chain[1..] == [Some(e2)];
    assert chain[1..][1..] == [];
    assert MasqWalk(chain[1..][1..], 1000, 2000, la, fa, cfg, hooks) == MasqResult(false, []);
    assert MasqWalk(chain[1..], 1000, 2000, la, fa, cfg, hooks) == MasqResult(false, []);
    assert MasqWalkFixed(chain[1..], lport, fport, la, fa, cfg, hooks) ==
      MasqResult(true, [Sent(Reply(1000, 2000, UserId("UNIX", "bob")))]);
  }

  /** masq as written: the for loop over nat_next, which converts its own
      lport and fport parameters to host order on every matched entry it
      does not resolve. */
  method Masq(k: Kernel, queryLport: Port16, queryFport: Port16, laddr: SockAddr, faddr: SockAddr,
              cfg: Config, hooks: MasqHooks) returns (handled: bool, out: seq<Emitted>)
    ensures MasqResult(handled, out) == MasqOutcome(k, queryLport, queryFport, laddr, faddr, cfg, hooks)
  {
    if !faddr.ip.V4? || !laddr.ip.V4? {
      return false, [];
    }
    if k.natList.None? {
      return false, [];
    }
    var chain := k.natList.value;
    var la, fa := laddr.ip.v4, faddr.ip.v4;
    var lport, fport := queryLport, queryFport;
    var i := 0;
    while i < |chain|
      invariant 0 <= i <= |chain|
      invariant MasqWalk(chain[i..], lport, fport, la, fa, cfg, hooks) ==
                MasqWalk(chain, queryLport, queryFport, la, fa, cfg, hooks)
    {
      assert chain[i..][0] == chain[i] && chain[i..][1..] == chain[i + 1..];
      if chain[i].None? {
        break;
      }
      var entry := chain[i].value;
      i := i + 1;
      if entry.proto != IPPROTO_TCP { continue; }
      if lport != entry.outPort { continue; }
      if fport != entry.oPort { continue; }
      if la != entry.outIp { continue; }
      if fa != entry.oIp {
        if Proxy !in cfg.enabled { continue; }
        if fa != cfg.proxy { continue; }
        if la == cfg.proxy { continue; }
      }
      lport := HostNet(lport, cfg.littleEndian);
      fport := HostNet(fport, cfg.littleEndian);
      var masqLport := HostNet(entry.inPort, cfg.littleEndian);
      var masqFport := HostNet(entry.outPort, cfg.littleEndian);
      var found := hooks.findMasqEntry(entry.inIp);
      var relayed: seq<Emitted> := [];
      if Forward in cfg.enabled && (found.None? || MasqOverride !in cfg.enabled) {
        var q := ForwardQuery(lport, masqLport, fport, masqFport, entry.inIp);
        if hooks.fwdRequest(q) {
          relayed := [Relayed(q)];
          if found.None? {
            return true, relayed;
          }
        }
      }
      if found.Some? {
        return true, relayed + [Sent(Reply(lport, fport, UserId(found.value.os, found.value.user)))];
      }
    }
    return false, [];
  }

  /** masq with the evidently intended comparison: the query's ports stay
      in network order for every entry, and only the reply and the
      forwarded query use their host-order values. */
  method MasqFixed(k: Kernel, lport: Port16, fport: Port16, laddr: SockAddr, faddr: SockAddr,
                   cfg: Config, hooks: MasqHooks) returns (handled: bool, out: seq<Emitted>)
    ensures MasqResult(handled, out) == MasqOutcomeFixed(k, lport, fport, laddr, faddr, cfg, hooks)
  {
    if !faddr.ip.V4? || !laddr.ip.V4? {
      return false, [];
    }
    if k.natList.None? {
      return false, [];
    }
    var chain := k.natList.value;
    var la, fa := laddr.ip.v4, faddr.ip.v4;
    var i := 0;
    while i < |chain|
      invariant 0 <= i <= |chain|
      invariant MasqWalkFixed(chain[i..], lport, fport, la, fa, cfg, hooks) ==
                MasqWalkFixed(chain, lport, fport, la, fa, cfg, hooks)
    {
      assert chain[i..][0] == chain[i] && chain[i..][1..] == chain[i + 1..];
      if chain[i].None? {
        break;
      }
      var entry := chain[i].value;
      i := i + 1;
      if entry.proto != IPPROTO_TCP { continue; }
      if lport != entry.outPort { continue; }
      if fport != entry.oPort { continue; }
      if la != entry.outIp { continue; }
      if fa != entry.oIp {
        if Proxy !in cfg.enabled { continue; }
        if fa != cfg.proxy { continue; }
        if la == cfg.proxy { continue; }
      }
      var hostLport := HostNet(lport, cfg.littleEndian);
      var hostFport := HostNet(fport, cfg.littleEndian);
      var masqLport := HostNet(entry.inPort, cfg.littleEndian);
      var masqFport := HostNet(entry.outPort, cfg.littleEndian);
      var found := hooks.findMasqEntry(entry.inIp);
      var relayed: seq<Emitted> := [];
      if Forward in cfg.enabled && (found.None? || MasqOverride !in cfg.enabled) {
        var q := ForwardQuery(hostLport, masqLport, hostFport, masqFport, entry.inIp);
        if hooks.fwdRequest(q) {
          relayed := [Relayed(q)];
          if found.None? {
            return true, relayed;
          }
        }
      }
      if found.Some? {
        return true, relayed + [Sent(Reply(hostLport, hostFport, UserId(found.value.os, found.value.user)))];
      }
    }
    return false, [];
  }

  // ---------------------------------------------------------------------
  // k_open
  // ---------------------------------------------------------------------

  /** k_open after kvm_open (kvmOpened) and kvm_nlist (nlistOk): 0 on
      success, -1 on failure. natSymbol is the value kvm_nlist found for the
      NAT list symbol; when MASQ is on and that value is 0, MASQ is switched
      off rather than the start-up failing. */
  method KOpen(opts: OptionState, kvmOpened: bool, nlistOk: bool, natSymbol: nat) returns (status: int)
    modifies opts
    ensures status == (if kvmOpened && nlistOk then 0 else -1)
    ensures opts.enabled ==
      if kvmOpened && nlistOk && Opt.Masq in old(opts.enabled) && natSymbol == 0
      then old(opts.enabled) - {Opt.Masq} else old(opts.enabled)
    ensures opts.enabled <= old(opts.enabled)
    ensures opts.enabled - {Opt.Masq} == old(opts.enabled) - {Opt.Masq}
  {
    if !kvmOpened {
      return -1;
    }
    if !nlistOk {
      return -1;
    }
    if Opt.Masq in opts.enabled && natSymbol == 0 {
      opts.enabled := opts.enabled - {Opt.Masq};
    }
    return 0;
  }
}
