/** service_request: one ident request, from the accepted socket's addresses
    and the request line to the reply written back. The kernel is read
    through the OpenBSD backend; the password database, the user policy
    (get_ident) and the NAT collaborators are parameters. */
module Service {
  import opened Common
  import opened Inet
  import opened Options
  import opened Wire
  import opened OpenBSD

  /** The owner lookups of the resolution cascade, in the order tried. */
  datatype Lookup = Direct4 | Mapped6 | Native6 | NatLookup

  function Rank(s: Lookup): nat {
    match s
    case Direct4 => 0
    case Mapped6 => 1
    case Native6 => 2
    case NatLookup => 3
  }

  /** The fields of struct passwd that the handler copies. */
  datatype Passwd = Passwd(name: string, uid: Uid, gid: Uid, dir: string)

  /** The arguments of get_ident (ports in host order, after the IPv4
      rewrite of a mapped address). */
  datatype IdentQuery = IdentQuery(pw: Passwd, lport: Port16, fport: Port16, laddr: SockAddr, faddr: SockAddr)

  /** The collaborators of the handler: getpwuid, get_ident (None when it
      returns -1, the user being hidden) and those of masq. */
  datatype Host = Host(
    getpwuid: Uid -> Option<Passwd>,
    getIdent: IdentQuery -> Option<string>,
    masq: MasqHooks)

  /** What one accepted connection offers: the results of getsockname and
      getpeername (None on failure) and of sock_read (None when no line
      could be read). */
  datatype Session = Session(local: Option<SockAddr>, peer: Option<SockAddr>, line: Option<string>)

  /** What the handler sends, and the lookups it performs, in order. */
  datatype Outcome = Outcome(out: seq<Emitted>, trace: seq<Lookup>)

  predicate SameFamily(a: SockAddr, b: SockAddr) {
    a.ip.V4? == b.ip.V4?
  }

  /** Both ends of one socket have the same address family. */
  predicate WellFormed(s: Session) {
    s.local.Some? && s.peer.Some? ==> SameFamily(s.local.value, s.peer.value)
  }

  /** sin_extractv4 followed by sin_setv4. */
  function Unmap(a: SockAddr): SockAddr
    requires a.ip.V6?
  {
    SockAddr(V4(ExtractV4(a.ip.v6)), SockaddrIn4Len)
  }

  /** The address rewrite done before any lookup: when the local address is
      IPv4-mapped, both addresses are replaced by their IPv4 forms. */
  function Normalize(local: SockAddr, peer: SockAddr): (r: (SockAddr, SockAddr))
    requires SameFamily(local, peer)
    ensures SameFamily(r.0, r.1)
    ensures local.ip.V6? && IsV4Mapped(local.ip.v6) ==>
      r.0.ip.V4? && r.1.ip.V4? && MapV4To6(r.0.ip.v4) == local.ip.v6 &&
      r.1.ip.v4 == ExtractV4(peer.ip.v6)
    ensures !(local.ip.V6? && IsV4Mapped(local.ip.v6)) ==> r == (local, peer)
    ensures r.0.ip.V4? <==> local.ip.V4? || IsV4Mapped(local.ip.v6)
  {
    if local.ip.V6? && IsV4Mapped(local.ip.v6) then
      MapExtractRoundTrip(local.ip.v6);
      (Unmap(local), Unmap(peer))
    else (local, peer)
  }

  /** sin_mapv4to6 followed by sin_setv6. */
  function ToMapped6(a: SockAddr): (r: SockAddr)
    requires a.ip.V4?
    ensures r.ip.V6? && IsV4Mapped(r.ip.v6) && ExtractV4(r.ip.v6) == a.ip.v4
  {
    SockAddr(V6(MapV4To6(a.ip.v4)), SockaddrIn6Len)
  }

  /** The validated request with the addresses it is resolved for: laddr and
      faddr after the rewrite, laddr6 and faddr6 as accepted. */
  datatype Tuple = Tuple(
    lport: Port16, fport: Port16,
    laddr: SockAddr, faddr: SockAddr,
    laddr6: SockAddr, faddr6: SockAddr)

  predicate TupleOk(t: Tuple) {
    SameFamily(t.laddr, t.faddr) && SameFamily(t.laddr6, t.faddr6)
  }

  /** The owner lookups that apply to a tuple, in the order they are tried:
      the two IPv4 ones when the (rewritten) local address is IPv4, the
      native IPv6 one when the accepted local address is IPv6. */
  predicate Applicable(s: Lookup, t: Tuple) {
    match s
    case Direct4 => t.laddr.ip.V4?
    case Mapped6 => t.laddr.ip.V4?
    case Native6 => t.laddr6.ip.V6?
    case NatLookup => false
  }

  predicate AllApplicable(steps: seq<Lookup>, t: Tuple) {
    forall i :: 0 <= i < |steps| ==> Applicable(steps[i], t)
  }

  function UidSteps(t: Tuple): (steps: seq<Lookup>)
    ensures AllApplicable(steps, t)
    ensures forall s :: s in steps <==> Applicable(s, t)
  {
    (if t.laddr.ip.V4? then [Direct4, Mapped6] else []) + (if t.laddr6.ip.V6? then [Native6] else [])
  }

  /** The owner lookups come in ascending rank and never include the NAT one. */
  lemma UidStepsOrdered(t: Tuple)
    ensures var steps := UidSteps(t);
      (forall i, j :: 0 <= i < j < |steps| ==> Rank(steps[i]) < Rank(steps[j])) && NatLookup !in steps
  {
  }

  /** One owner lookup, with the ports converted to network order. */
  function RunLookup(s: Lookup, t: Tuple, k: Kernel, cfg: Config): Option<Uid>
    requires TupleOk(t) && Applicable(s, t)
  {
    var nl, nf := HostNet(t.lport, cfg.littleEndian), HostNet(t.fport, cfg.littleEndian);
    match s
    case Direct4 => Owner4(k, Query4(nl, nf, t.laddr.ip.v4, t.faddr.ip.v4), cfg)
    case Mapped6 => GetUser6(k, nl, nf, ToMapped6(t.laddr), ToMapped6(t.faddr))
    case Native6 => GetUser6(k, nl, nf, t.laddr6, t.faddr6)
  }

  /** What each lookup finds for one tuple; a lookup that does not apply
      finds nothing. */
  function Runner(t: Tuple, k: Kernel, cfg: Config): Lookup -> Option<Uid> {
    (st: Lookup) => if TupleOk(t) && Applicable(st, t) then RunLookup(st, t, k, cfg) else None
  }

  /** The reference definition of the cascade: lookups are tried in order
      until one finds an owner. The result is that owner (None when every
      lookup misses) and the lookups performed. */
  function Cascade(steps: seq<Lookup>, run: Lookup -> Option<Uid>): (r: (Option<Uid>, seq<Lookup>))
    ensures |r.1| <= |steps|
  {
    if steps == [] then (None, [])
    else if run(steps[0]).Some? then (run(steps[0]), [steps[0]])
    else
      var r := Cascade(steps[1..], run);
      (r.0, [steps[0]] + r.1)
  }

  /** The reply once the owner lookups are over: the fallback user or
      NO-USER when no owner was found, NO-USER when the owner has no passwd
      entry, HIDDEN-USER when get_ident hides the user, and USERID with the
      name get_ident gives otherwise. */
  function Respond(uid: Option<Uid>, t: Tuple, cfg: Config, host: Host): Reply {
    match uid
    case None =>
      if cfg.failUser.Some? then Reply(t.lport, t.fport, UserId(cfg.retOs, cfg.failUser.value))
      else Reply(t.lport, t.fport, Error(NoUser))
    case Some(u) =>
      match host.getpwuid(u)
      case None => Reply(t.lport, t.fport, Error(NoUser))
      case Some(pw) =>
        match host.getIdent(IdentQuery(pw, t.lport, t.fport, t.laddr, t.faddr))
        case None => Reply(t.lport, t.fport, Error(HiddenUser))
        case Some(name) => Reply(t.lport, t.fport, UserId(cfg.retOs, name))
  }

  /** The tuple of a session whose request carried the valid ports l and f. */
  function SessionTuple(s: Session, l: int, f: int): (t: Tuple)
    requires WellFormed(s) && s.local.Some? && s.peer.Some?
    requires ValidPort(l) && ValidPort(f)
    ensures TupleOk(t)
  {
    var n := Normalize(s.local.value, s.peer.value);
    Tuple(l, f, n.0, n.1, s.local.value, s.peer.value)
  }

  /** Whether the NAT lookup runs: MASQ is on, no owner was found and the
      (rewritten) local address is IPv4. */
  predicate NatApplies(uid: Option<Uid>, t: Tuple, cfg: Config) {
    Opt.Masq in cfg.enabled && uid.None? && t.laddr.ip.V4?
  }

  /** What happens to a valid request once its tuple is known: the owner
      lookups, then NAT (masq as written) when it applies, then the reply. */
  function Resolve(t: Tuple, k: Kernel, cfg: Config, host: Host): Outcome
    requires TupleOk(t)
  {
    var c := Cascade(UidSteps(t), Runner(t, k, cfg));
    if NatApplies(c.0, t, cfg) then
      var m := MasqOutcome(k, HostNet(t.lport, cfg.littleEndian), HostNet(t.fport, cfg.littleEndian),
                           t.laddr, t.faddr, cfg, host.masq);
      if m.handled then Outcome(m.out, c.1 + [NatLookup])
      else Outcome([Sent(Respond(None, t, cfg, host))], c.1 + [NatLookup])
    else Outcome([Sent(Respond(c.0, t, cfg, host))], c.1)
  }

  /** The evidently intended resolution: the same, with the corrected masq. */
  function ResolveIntended(t: Tuple, k: Kernel, cfg: Config, host: Host): Outcome
    requires TupleOk(t)
  {
    var c := Cascade(UidSteps(t), Runner(t, k, cfg));
    if NatApplies(c.0, t, cfg) then
      var m := MasqOutcomeFixed(k, HostNet(t.lport, cfg.littleEndian), HostNet(t.fport, cfg.littleEndian),
                                t.laddr, t.faddr, cfg, host.masq);
      if m.handled then Outcome(m.out, c.1 + [NatLookup])
      else Outcome([Sent(Respond(None, t, cfg, host))], c.1 + [NatLookup])
    else Outcome([Sent(Respond(c.0, t, cfg, host))], c.1)
  }

  /** The decision of service_request. */
  function ServiceOutcome(s: Session, k: Kernel, cfg: Config, host: Host): Outcome
    requires WellFormed(s)
  {
    if s.peer.None? || s.local.None? || s.line.None? then Outcome([], [])
    else
      match ParseRequest(s.line.value)
      case None => Outcome([], [])
      case Some((l, f)) =>
        if !ValidPort(l) || !ValidPort(f) then Outcome([Sent(Reply(l, f, Error(InvalidPort)))], [])
        else Resolve(SessionTuple(s, l, f), k, cfg, host)
  }

  /** service_request */
  method ServiceRequest(s: Session, k: Kernel, cfg: Config, host: Host) returns (out: seq<Emitted>, trace: seq<Lookup>)
    requires WellFormed(s)
    ensures Outcome(out, trace) == ServiceOutcome(s, k, cfg, host)
  {
    out, trace := [], [];
    if s.peer.None? {
      return;
    }
    if s.local.None? {
      return;
    }
    var faddr, laddr := s.peer.value, s.local.value;
    var laddr6, faddr6 := laddr, faddr;
    if laddr.ip.V6? && IsV4Mapped(laddr.ip.v6) {
      laddr := SockAddr(V4(ExtractV4(laddr.ip.v6)), SockaddrIn4Len);
      faddr := SockAddr(V4(ExtractV4(faddr.ip.v6)), SockaddrIn4Len);
    }
    if s.line.None? {
      return;
    }
    var parsed := ParseRequest(s.line.value);
    if parsed.None? {
      return;
    }
    var lportTemp, fportTemp := parsed.value.0, parsed.value.1;
    if !ValidPort(lportTemp) || !ValidPort(fportTemp) {
      out := [Sent(Reply(lportTemp, fportTemp, Error(InvalidPort)))];
      return;
    }
    var lport: Port16, fport: Port16 := lportTemp, fportTemp;
    var nl, nf := HostNet(lport, cfg.littleEndian), HostNet(fport, cfg.littleEndian);
    var t := Tuple(lport, fport, laddr, faddr, laddr6, faddr6);
    assert t == SessionTuple(s, lport, fport);
    var conUid;
    conUid, trace := LookupOwner(t, k, cfg);

    if Opt.Masq in cfg.enabled {
      if conUid.None? && laddr.ip.V4? {
        trace := trace + [NatLookup];
        var handled, masqOut := OpenBSD.Masq(k, nl, nf, laddr, faddr, cfg, host.masq);
        if handled {
          out := masqOut;
          return;
        }
      }
    }

    var reply := Answer(conUid, t, cfg, host);
    out := [Sent(reply)];
  }

  /** The reply once the lookups are over (the end of service_request). */
  method Answer(conUid: Option<Uid>, t: Tuple, cfg: Config, host: Host) returns (reply: Reply)
    ensures reply == Respond(conUid, t, cfg, host)
  {
    if conUid.None? {
      if cfg.failUser.Some? {
        return Reply(t.lport, t.fport, UserId(cfg.retOs, cfg.failUser.value));
      }
      return Reply(t.lport, t.fport, Error(NoUser));
    }
    var pw := host.getpwuid(conUid.value);
    if pw.None? {
      return Reply(t.lport, t.fport, Error(NoUser));
    }
    var suser := host.getIdent(IdentQuery(pw.value, t.lport, t.fport, t.laddr, t.faddr));
    if suser.None? {
      return Reply(t.lport, t.fport, Error(HiddenUser));
    }
    return Reply(t.lport, t.fport, UserId(cfg.retOs, suser.value));
  }

  /** The chain of owner lookups of service_request: each one runs only
      while no owner has been found. */
  method LookupOwner(t: Tuple, k: Kernel, cfg: Config) returns (conUid: Option<Uid>, trace: seq<Lookup>)
    requires TupleOk(t)
    ensures (conUid, trace) == Cascade(UidSteps(t), Runner(t, k, cfg))
  {
    var nl, nf := HostNet(t.lport, cfg.littleEndian), HostNet(t.fport, cfg.littleEndian);
    trace := [];
    conUid := None;
    if conUid.None? && t.laddr.ip.V4? {
      trace := trace + [Direct4];
      conUid := GetUser4(k, Query4(nl, nf, t.laddr.ip.v4, t.faddr.ip.v4), cfg);
      assert conUid == Runner(t, k, cfg)(Direct4);
    }
    ghost var d, traceD := conUid, trace;
    if conUid.None? && t.laddr.ip.V4? {
      trace := trace + [Mapped6];
      var laddrM6 := SockAddr(V6(MapV4To6(t.laddr.ip.v4)), SockaddrIn6Len);
      var faddrM6 := SockAddr(V6(MapV4To6(t.faddr.ip.v4)), SockaddrIn6Len);
      conUid := GetUser6(k, nl, nf, laddrM6, faddrM6);
      assert conUid == Runner(t, k, cfg)(Mapped6);
    }
    ghost var m, traceM := conUid, trace;
    if conUid.None? && t.laddr6.ip.V6? {
      trace := trace + [Native6];
      conUid := GetUser6(k, nl, nf, t.laddr6, t.faddr6);
      assert conUid == Runner(t, k, cfg)(Native6);
    }
    CascadeUnrolled(t.laddr.ip.V4?, t.laddr6.ip.V6?, Runner(t, k, cfg));
    assert traceD == (if t.laddr.ip.V4? then [Direct4] else []);
    assert traceM == traceD + (if d.None? && t.laddr.ip.V4? then [Mapped6] else []);
    assert trace == traceM + (if m.None? && t.laddr6.ip.V6? then [Native6] else []);
  }

  /** The cascade tries the lookups in order, stops at the first one that
      finds an owner and answers with that owner; when none finds one, every
      lookup was tried. */
  lemma {:induction false} CascadeFirstFound(steps: seq<Lookup>, run: Lookup -> Option<Uid>)
    ensures var r := Cascade(steps, run);
      r.1 <= steps &&
      (forall i :: 0 <= i < |r.1| - 1 ==> run(r.1[i]).None?) &&
      (r.0.Some? ==> r.1 != [] && r.0 == run(r.1[|r.1| - 1])) &&
      (r.0.None? <==> forall i :: 0 <= i < |steps| ==> run(steps[i]).None?) &&
      (r.0.None? ==> r.1 == steps)
  {
    if steps != [] && run(steps[0]).None? {
      CascadeFirstFound(steps[1..], run);
      var r := Cascade(steps[1..], run);
      assert Cascade(steps, run) == (r.0, [steps[0]] + r.1);
      assert forall i :: 1 <= i < |steps| ==> steps[i] == steps[1..][i - 1];
    }
  }

  /** The cascade over the lookups of a tuple, written out step by step as
      the handler's chain of "if con_uid == MISSING_UID" tests: v4 and v6
      are the two address tests. */
  lemma CascadeUnrolled(v4: bool, v6: bool, run: Lookup -> Option<Uid>)
    ensures var d := if v4 then run(Direct4) else None;
      var m := if d.None? && v4 then run(Mapped6) else d;
      var n := if m.None? && v6 then run(Native6) else m;
      Cascade((if v4 then [Direct4, Mapped6] else []) + (if v6 then [Native6] else []), run) ==
        (n, (if v4 then [Direct4] else []) +
            (if d.None? && v4 then [Mapped6] else []) +
            (if m.None? && v6 then [Native6] else []))
  {
    var tail := if v6 then [Native6] else [];
    var steps := (if v4 then [Direct4, Mapped6] else []) + tail;
    assert Cascade([], run) == (None, []);
    assert [Native6][1..] == [];
    assert [Native6] + [] == [Native6];
    assert Cascade(tail, run) == if v6 then (run(Native6), [Native6]) else (None, []);
    if v4 {
      assert steps[1..] == [Mapped6] + tail;
      assert ([Mapped6] + tail)[1..] == tail;
      if run(Direct4).None? && run(Mapped6).None? {
        assert [Direct4] + ([Mapped6] + Cascade(tail, run).1) == [Direct4] + [Mapped6] + Cascade(tail, run).1;
      } else if run(Direct4).None? {
        assert [Direct4] + [Mapped6] + [] == [Direct4] + [Mapped6];
      } else {
        assert [Direct4] + [] + [] == [Direct4];
      }
    } else {
      var none: seq<Lookup> := [];
      assert steps == tail && none + none + tail == tail;
    }
  }

  /** Lookup i is the first of the list to find an owner. */
  ghost predicate IsFirstOwner(steps: seq<Lookup>, run: Lookup -> Option<Uid>, i: int) {
    0 <= i < |steps| && run(steps[i]).Some? && forall j :: 0 <= j < i ==> run(steps[j]).None?
  }

  /** The cascade answers with the owner of the first lookup that finds one,
      having tried exactly the lookups up to it. */
  lemma CascadeStopsAtFirstOwner(steps: seq<Lookup>, run: Lookup -> Option<Uid>, i: int)
    requires IsFirstOwner(steps, run, i)
    ensures Cascade(steps, run) == (run(steps[i]), steps[..i + 1])
  {
    CascadeFirstFound(steps, run);
    var r := Cascade(steps, run);
    assert r.0.Some?;
    assert r.1 == steps[..i + 1];
  }

  /** The preconditions shared by the lemmas about a request that carries
      two valid ports l and f. */
  predicate ValidRequest(s: Session, l: int, f: int) {
    WellFormed(s) && s.local.Some? && s.peer.Some? && s.line.Some? &&
    ParseRequest(s.line.value) == Some((l, f)) && ValidPort(l) && ValidPort(f)
  }

  lemma ValidRequestResolved(s: Session, k: Kernel, cfg: Config, host: Host, l: int, f: int)
    requires ValidRequest(s, l, f)
    ensures ServiceOutcome(s, k, cfg, host) == Resolve(SessionTuple(s, l, f), k, cfg, host)
  {
  }

  /** Nothing is sent, and no lookup is made, exactly when the connection
      yields no request: an address cannot be read, no line arrives, or the
      line does not hold two integers separated by a comma. */
  lemma SilentExactlyWithoutRequest(s: Session, k: Kernel, cfg: Config, host: Host)
    requires WellFormed(s)
    ensures var o := ServiceOutcome(s, k, cfg, host);
      o.out == [] <==>
        s.peer.None? || s.local.None? || s.line.None? || ParseRequest(s.line.value).None?
    ensures var o := ServiceOutcome(s, k, cfg, host);
      o.out == [] ==> o.trace == []
  {
    if s.peer.Some? && s.local.Some? && s.line.Some? && ParseRequest(s.line.value).Some? {
      var (l, f) := ParseRequest(s.line.value).value;
      if ValidPort(l) && ValidPort(f) {
        ValidRequestResolved(s, k, cfg, host, l, f);
        ResolveAlwaysSends(SessionTuple(s, l, f), k, cfg, host);
      }
    }
  }

  /** A valid request is always answered. */
  lemma ResolveAlwaysSends(t: Tuple, k: Kernel, cfg: Config, host: Host)
    requires TupleOk(t)
    ensures Resolve(t, k, cfg, host).out != []
  {
    var c := Cascade(UidSteps(t), Runner(t, k, cfg));
    if NatApplies(c.0, t, cfg) && t.faddr.ip.V4? && t.laddr.ip.V4? && k.natList.Some? {
      var nl, nf := HostNet(t.lport, cfg.littleEndian), HostNet(t.fport, cfg.littleEndian);
      MasqWalkSilentUnlessHandled(k.natList.value, nl, nf, t.laddr.ip.v4, t.faddr.ip.v4, cfg, host.masq);
    }
  }

  /** A port outside 1..65535 is answered with INVALID-PORT, echoing the two
      numbers as parsed, before any lookup. */
  lemma InvalidPortEchoed(s: Session, k: Kernel, cfg: Config, host: Host, l: int, f: int)
    requires WellFormed(s) && s.local.Some? && s.peer.Some? && s.line.Some?
    requires ParseRequest(s.line.value) == Some((l, f))
    requires !ValidPort(l) || !ValidPort(f)
    ensures ServiceOutcome(s, k, cfg, host) == Outcome([Sent(Reply(l, f, Error(InvalidPort)))], [])
  {
  }

  /** The lookups run in the fixed order direct IPv4, IPv4-mapped IPv6,
      native IPv6, NAT, each at most once and only while no owner has been
      found; the NAT lookup runs only with MASQ on, for an IPv4 local address,
      after every owner lookup missed. */
  lemma LookupOrder(s: Session, k: Kernel, cfg: Config, host: Host, l: int, f: int)
    requires ValidRequest(s, l, f)
    ensures var trace := ServiceOutcome(s, k, cfg, host).trace;
      forall i, j :: 0 <= i < j < |trace| ==> Rank(trace[i]) < Rank(trace[j])
    ensures var t := SessionTuple(s, l, f);
      var trace := ServiceOutcome(s, k, cfg, host).trace;
      forall i :: 0 <= i < |trace| - 1 ==>
        Applicable(trace[i], t) && RunLookup(trace[i], t, k, cfg).None?
    ensures var t := SessionTuple(s, l, f);
      var trace := ServiceOutcome(s, k, cfg, host).trace;
      NatLookup in trace <==>
        Opt.Masq in cfg.enabled && t.laddr.ip.V4? &&
        forall st :: Applicable(st, t) ==> RunLookup(st, t, k, cfg).None?
    ensures var t := SessionTuple(s, l, f);
      var trace := ServiceOutcome(s, k, cfg, host).trace;
      trace != [] <==> t.laddr.ip.V4? || t.laddr6.ip.V6?
  {
    ValidRequestResolved(s, k, cfg, host, l, f);
    ResolveLookupOrder(SessionTuple(s, l, f), k, cfg, host);
  }

  lemma ResolveLookupOrder(t: Tuple, k: Kernel, cfg: Config, host: Host)
    requires TupleOk(t)
    ensures var trace := Resolve(t, k, cfg, host).trace;
      forall i, j :: 0 <= i < j < |trace| ==> Rank(trace[i]) < Rank(trace[j])
    ensures var trace := Resolve(t, k, cfg, host).trace;
      forall i :: 0 <= i < |trace| - 1 ==>
        Applicable(trace[i], t) && RunLookup(trace[i], t, k, cfg).None?
    ensures var trace := Resolve(t, k, cfg, host).trace;
      NatLookup in trace <==>
        Opt.Masq in cfg.enabled && t.laddr.ip.V4? &&
        forall st :: Applicable(st, t) ==> RunLookup(st, t, k, cfg).None?
    ensures Resolve(t, k, cfg, host).trace != [] <==> t.laddr.ip.V4? || t.laddr6.ip.V6?
  {
    ResolveTraceOrdered(t, k, cfg, host);
    ResolveTraceNat(t, k, cfg, host);
  }

  lemma ResolveTraceOrdered(t: Tuple, k: Kernel, cfg: Config, host: Host)
    requires TupleOk(t)
    ensures var trace := Resolve(t, k, cfg, host).trace;
      forall i, j :: 0 <= i < j < |trace| ==> Rank(trace[i]) < Rank(trace[j])
    ensures var trace := Resolve(t, k, cfg, host).trace;
      forall i :: 0 <= i < |trace| - 1 ==>
        Applicable(trace[i], t) && RunLookup(trace[i], t, k, cfg).None?
  {
    ResolveRanks(t, k, cfg, host);
    ResolveMisses(t, k, cfg, host);
  }

  /** The lookups are made in ascending rank. */
  lemma ResolveRanks(t: Tuple, k: Kernel, cfg: Config, host: Host)
    requires TupleOk(t)
    ensures var trace := Resolve(t, k, cfg, host).trace;
      forall i, j :: 0 <= i < j < |trace| ==> Rank(trace[i]) < Rank(trace[j])
  {
    var steps := UidSteps(t);
    var run := Runner(t, k, cfg);
    var c := Cascade(steps, run);
    CascadeFirstFound(steps, run);
    UidStepsOrdered(t);
    var withNat := NatApplies(c.0, t, cfg);
    RanksOfPrefix(c.1, steps, withNat);
    ResolveTrace(t, k, cfg, host);
    var q := if withNat then c.1 + [NatLookup] else c.1;
    assert Resolve(t, k, cfg, host).trace == q;
  }

  /** Every lookup but the last applies and found no owner. */
  lemma ResolveMisses(t: Tuple, k: Kernel, cfg: Config, host: Host)
    requires TupleOk(t)
    ensures var trace := Resolve(t, k, cfg, host).trace;
      forall i :: 0 <= i < |trace| - 1 ==>
        Applicable(trace[i], t) && RunLookup(trace[i], t, k, cfg).None?
  {
    var steps := UidSteps(t);
    var run := Runner(t, k, cfg);
    var c := Cascade(steps, run);
    CascadeFirstFound(steps, run);
    ResolveTrace(t, k, cfg, host);
    var trace := Resolve(t, k, cfg, host).trace;
    forall i | 0 <= i < |trace| - 1
      ensures Applicable(trace[i], t) && RunLookup(trace[i], t, k, cfg).None?
    {
      assert trace[i] == c.1[i] == steps[i];
      assert run(steps[i]).None?;
    }
  }

  /** The lookups of a valid request: those of the cascade, then NAT when it
      applies. */
  lemma ResolveTrace(t: Tuple, k: Kernel, cfg: Config, host: Host)
    requires TupleOk(t)
    ensures var c := Cascade(UidSteps(t), Runner(t, k, cfg));
      Resolve(t, k, cfg, host).trace == if NatApplies(c.0, t, cfg) then c.1 + [NatLookup] else c.1
  {
  }

  /** A prefix of lookups in ascending rank, possibly followed by NAT, is in
      ascending rank. */
  lemma RanksOfPrefix(p: seq<Lookup>, steps: seq<Lookup>, withNat: bool)
    requires p <= steps && NatLookup !in steps
    requires forall i, j :: 0 <= i < j < |steps| ==> Rank(steps[i]) < Rank(steps[j])
    ensures var q := if withNat then p + [NatLookup] else p;
      forall i, j :: 0 <= i < j < |q| ==> Rank(q[i]) < Rank(q[j])
  {
    var q := if withNat then p + [NatLookup] else p;
    forall i, j | 0 <= i < j < |q| ensures Rank(q[i]) < Rank(q[j]) {
      assert q[i] == steps[i];
      if j < |p| {
        assert q[j] == steps[j];
      }
    }
  }

  lemma ResolveTraceNat(t: Tuple, k: Kernel, cfg: Config, host: Host)
    requires TupleOk(t)
    ensures var trace := Resolve(t, k, cfg, host).trace;
      NatLookup in trace <==>
        Opt.Masq in cfg.enabled && t.laddr.ip.V4? &&
        forall st :: Applicable(st, t) ==> RunLookup(st, t, k, cfg).None?
    ensures Resolve(t, k, cfg, host).trace != [] <==> t.laddr.ip.V4? || t.laddr6.ip.V6?
  {
    var steps := UidSteps(t);
    CascadeFirstFound(steps, Runner(t, k, cfg));
    var c := Cascade(steps, Runner(t, k, cfg));
    if NatApplies(c.0, t, cfg) {
      assert Resolve(t, k, cfg, host).trace == c.1 + [NatLookup];
      forall st | Applicable(st, t) ensures RunLookup(st, t, k, cfg).None? {
        assert st in steps;
      }
    } else {
      assert Resolve(t, k, cfg, host).trace == c.1;
      assert NatLookup !in c.1 by {
        UidStepsOrdered(t);
      }
      if Opt.Masq in cfg.enabled && t.laddr.ip.V4? {
        assert Direct4 in steps;
      }
    }
  }

  /** When no lookup finds an owner and NAT does not answer, the reply is the
      fallback user when one is configured and NO-USER otherwise. */
  lemma NoOwnerReply(s: Session, k: Kernel, cfg: Config, host: Host, l: int, f: int)
    requires ValidRequest(s, l, f)
    requires var t := SessionTuple(s, l, f);
      forall st :: Applicable(st, t) ==> RunLookup(st, t, k, cfg).None?
    requires var t := SessionTuple(s, l, f);
      Opt.Masq in cfg.enabled ==>
        !MasqOutcome(k, HostNet(l, cfg.littleEndian), HostNet(f, cfg.littleEndian),
                     t.laddr, t.faddr, cfg, host.masq).handled
    ensures ServiceOutcome(s, k, cfg, host).out ==
      if cfg.failUser.Some? then [Sent(Reply(l, f, UserId(cfg.retOs, cfg.failUser.value)))]
      else [Sent(Reply(l, f, Error(NoUser)))]
  {
    ValidRequestResolved(s, k, cfg, host, l, f);
    ResolveNoOwner(SessionTuple(s, l, f), k, cfg, host);
  }

  lemma ResolveNoOwner(t: Tuple, k: Kernel, cfg: Config, host: Host)
    requires TupleOk(t)
    requires forall st :: Applicable(st, t) ==> RunLookup(st, t, k, cfg).None?
    requires Opt.Masq in cfg.enabled ==>
      !MasqOutcome(k, HostNet(t.lport, cfg.littleEndian), HostNet(t.fport, cfg.littleEndian),
                   t.laddr, t.faddr, cfg, host.masq).handled
    ensures Resolve(t, k, cfg, host).out ==
      if cfg.failUser.Some? then [Sent(Reply(t.lport, t.fport, UserId(cfg.retOs, cfg.failUser.value)))]
      else [Sent(Reply(t.lport, t.fport, Error(NoUser)))]
  {
    CascadeFirstFound(UidSteps(t), Runner(t, k, cfg));
  }

  /** When NAT answers, its messages are everything that is sent. */
  lemma MasqAnswerIsFinal(s: Session, k: Kernel, cfg: Config, host: Host, l: int, f: int)
    requires ValidRequest(s, l, f)
    requires var t := SessionTuple(s, l, f);
      Opt.Masq in cfg.enabled && forall st :: Applicable(st, t) ==> RunLookup(st, t, k, cfg).None?
    ensures var t := SessionTuple(s, l, f);
      var m := MasqOutcome(k, HostNet(l, cfg.littleEndian), HostNet(f, cfg.littleEndian),
                           t.laddr, t.faddr, cfg, host.masq);
      m.handled ==> ServiceOutcome(s, k, cfg, host) == Outcome(m.out, UidSteps(t) + [NatLookup])
  {
    ValidRequestResolved(s, k, cfg, host, l, f);
    ResolveMasqFinal(SessionTuple(s, l, f), k, cfg, host);
  }

  lemma ResolveMasqFinal(t: Tuple, k: Kernel, cfg: Config, host: Host)
    requires TupleOk(t)
    requires Opt.Masq in cfg.enabled && forall st :: Applicable(st, t) ==> RunLookup(st, t, k, cfg).None?
    ensures var m := MasqOutcome(k, HostNet(t.lport, cfg.littleEndian), HostNet(t.fport, cfg.littleEndian),
                                 t.laddr, t.faddr, cfg, host.masq);
      m.handled ==> Resolve(t, k, cfg, host) == Outcome(m.out, UidSteps(t) + [NatLookup])
  {
    CascadeFirstFound(UidSteps(t), Runner(t, k, cfg));
  }

  /** The resolution as written and the intended one make the same lookups,
      and differ at most in what NAT answers: they agree whenever MASQ is
      off, and on a big-endian host, where the conversion of the ports is
      the identity. */
  lemma ResolveAsWrittenAndIntended(t: Tuple, k: Kernel, cfg: Config, host: Host)
    requires TupleOk(t)
    ensures Resolve(t, k, cfg, host).trace == ResolveIntended(t, k, cfg, host).trace
    ensures Opt.Masq !in cfg.enabled ==> Resolve(t, k, cfg, host) == ResolveIntended(t, k, cfg, host)
    ensures !cfg.littleEndian ==> Resolve(t, k, cfg, host) == ResolveIntended(t, k, cfg, host)
  {
    if !cfg.littleEndian && t.laddr.ip.V4? && t.faddr.ip.V4? && k.natList.Some? {
      MasqWalkBigEndian(k.natList.value, HostNet(t.lport, cfg.littleEndian), HostNet(t.fport, cfg.littleEndian),
                        t.laddr.ip.v4, t.faddr.ip.v4, cfg, host.masq);
    }
  }

  /** The reassignment inside masq reaches the client. On a little-endian
      host with MASQ on and no fallback user, a request 1000,2000 between two
      IPv4 addresses whose owner lookups all fail (no readable pcb queue, a
      failing sysctl) meets the NAT table on which the walk as written
      answers nothing: the client gets NO-USER, where the intended handler
      answers with the operator's entry for the host behind the NAT. */
  lemma ResolveMasqCounterexample()
    ensures var cfg := Config({Opt.Masq}, [203, 0, 113, 1], None, "UNIX", true);
      var la, fa := SockAddr(V4([198, 51, 100, 1]), SockaddrIn4Len), SockAddr(V4([192, 0, 2, 7]), SockaddrIn4Len);
      var t := Tuple(1000, 2000, la, fa, la, fa);
      var e1 := NatEntry(IPPROTO_TCP, [10, 0, 0, 2], la.ip.v4, fa.ip.v4,
                         HostNet(1000, true), HostNet(1000, true), HostNet(2000, true));
      var e2 := NatEntry(IPPROTO_TCP, [10, 0, 0, 3], la.ip.v4, fa.ip.v4,
                         HostNet(1000, true), HostNet(1000, true), HostNet(2000, true));
      var k := Kernel(None, map[], q => SysctlFailed, Some([Some(e1), Some(e2)]));
      var hooks := MasqHooks(ip => if ip == [10, 0, 0, 3] then Some(MasqUser("bob", "UNIX")) else None,
                             q => false);
      var host := Host(u => None, q => None, hooks);
      Resolve(t, k, cfg, host).out == [Sent(Reply(1000, 2000, Error(NoUser)))] &&
      ResolveIntended(t, k, cfg, host).out == [Sent(Reply(1000, 2000, UserId("UNIX", "bob")))]
  {
    var cfg := Config({Opt.Masq}, [203, 0, 113, 1], None, "UNIX", true);
    var la, fa := SockAddr(V4([198, 51, 100, 1]), SockaddrIn4Len), SockAddr(V4([192, 0, 2, 7]), SockaddrIn4Len);
    var t := Tuple(1000, 2000, la, fa, la, fa);
    var lport, fport := HostNet(1000, true), HostNet(2000, true);
    assert lport == 59395 && fport == 53255;
    HostNetInvolutive(1000, true);
    HostNetInvolutive(2000, true);
    var e1 := NatEntry(IPPROTO_TCP, [10, 0, 0, 2], la.ip.v4, fa.ip.v4, lport, lport, fport);
    var e2 := NatEntry(IPPROTO_TCP, [10, 0, 0, 3], la.ip.v4, fa.ip.v4, lport, lport, fport);
    var k := Kernel(None, map[], q => SysctlFailed, Some([Some(e1), Some(e2)]));
    var hooks := MasqHooks(ip => if ip == [10, 0, 0, 3] then Some(MasqUser("bob", "UNIX")) else None,
                           q => false);
    var host := Host(u => None, q => None, hooks);
    var run := Runner(t, k, cfg);
    assert UidSteps(t) == [Direct4, Mapped6];
    assert run(Direct4) == None;
    assert run(Mapped6) == None;
    CascadeUnrolled(true, false, run);
    assert Cascade(UidSteps(t), run).0 == None;
    assert StepOf(e1, lport, fport, la.ip.v4, fa.ip.v4, cfg, hooks) == Unresolved(1000, 2000);
    assert StepOf(e2, 1000, 2000, la.ip.v4, fa.ip.v4, cfg, hooks) == Skip;
    assert StepOf(e2, lport, fport, la.ip.v4, fa.ip.v4, cfg, hooks) ==
      Handled([Sent(Reply(1000, 2000, UserId("UNIX", "bob")))]);
    var chain := [Some(e1), Some(e2)];
    assert chain[1..] == [Some(e2)];
    assert chain[1..][1..] == [];
    assert MasqWalk(chain[1..], 1000, 2000, la.ip.v4, fa.ip.v4, cfg, hooks) == MasqResult(false, []);
    assert MasqWalkFixed(chain[1..], lport, fport, la.ip.v4, fa.ip.v4, cfg, hooks) ==
      MasqResult(true, [Sent(Reply(1000, 2000, UserId("UNIX", "bob")))]);
  }

  /** When lookup i is the first to report an owner u, the reply concerns u:
      NO-USER when u has no passwd entry, HIDDEN-USER when get_ident hides
      the user, and otherwise USERID with the name get_ident gives and the
      configured operating system. No NAT lookup is made. */
  lemma OwnerReply(s: Session, k: Kernel, cfg: Config, host: Host, l: int, f: int, i: int, u: Uid)
    requires ValidRequest(s, l, f)
    requires var t := SessionTuple(s, l, f);
      IsFirstOwner(UidSteps(t), Runner(t, k, cfg), i) && RunLookup(UidSteps(t)[i], t, k, cfg) == Some(u)
    ensures var t := SessionTuple(s, l, f);
      ServiceOutcome(s, k, cfg, host).trace == UidSteps(t)[..i + 1]
    ensures var t := SessionTuple(s, l, f);
      ServiceOutcome(s, k, cfg, host).out ==
        match host.getpwuid(u)
        case None => [Sent(Reply(l, f, Error(NoUser)))]
        case Some(pw) =>
          match host.getIdent(IdentQuery(pw, l, f, t.laddr, t.faddr))
          case None => [Sent(Reply(l, f, Error(HiddenUser)))]
          case Some(name) => [Sent(Reply(l, f, UserId(cfg.retOs, name)))]
  {
    ValidRequestResolved(s, k, cfg, host, l, f);
    ResolveOwner(SessionTuple(s, l, f), k, cfg, host, i, u);
  }

  lemma ResolveOwner(t: Tuple, k: Kernel, cfg: Config, host: Host, i: int, u: Uid)
    requires TupleOk(t)
    requires IsFirstOwner(UidSteps(t), Runner(t, k, cfg), i) && RunLookup(UidSteps(t)[i], t, k, cfg) == Some(u)
    ensures Resolve(t, k, cfg, host).trace == UidSteps(t)[..i + 1]
    ensures Resolve(t, k, cfg, host).out ==
      match host.getpwuid(u)
      case None => [Sent(Reply(t.lport, t.fport, Error(NoUser)))]
      case Some(pw) =>
        match host.getIdent(IdentQuery(pw, t.lport, t.fport, t.laddr, t.faddr))
        case None => [Sent(Reply(t.lport, t.fport, Error(HiddenUser)))]
        case Some(name) => [Sent(Reply(t.lport, t.fport, UserId(cfg.retOs, name)))]
  {
    CascadeStopsAtFirstOwner(UidSteps(t), Runner(t, k, cfg), i);
  }

  /** A connection accepted on an IPv6 socket from an IPv4 peer is first
      resolved as the IPv4 connection it carries: the first lookup is the
      direct IPv4 one, on the addresses taken from the last four octets, and
      when it finds an owner no other lookup is made. */
  lemma MappedSessionResolvedAsIPv4(s: Session, k: Kernel, cfg: Config, host: Host, l: int, f: int)
    requires ValidRequest(s, l, f)
    requires s.local.value.ip.V6? && IsV4Mapped(s.local.value.ip.v6)
    ensures var trace := ServiceOutcome(s, k, cfg, host).trace;
      trace != [] && trace[0] == Direct4
    ensures var t := SessionTuple(s, l, f);
      var q := Query4(HostNet(l, cfg.littleEndian), HostNet(f, cfg.littleEndian),
                      ExtractV4(s.local.value.ip.v6), ExtractV4(s.peer.value.ip.v6));
      RunLookup(Direct4, t, k, cfg) == Owner4(k, q, cfg) &&
      (Owner4(k, q, cfg).Some? ==> ServiceOutcome(s, k, cfg, host).trace == [Direct4])
  {
    var t := SessionTuple(s, l, f);
    ValidRequestResolved(s, k, cfg, host, l, f);
    LookupOrder(s, k, cfg, host, l, f);
    assert UidSteps(t)[0] == Direct4;
    if RunLookup(Direct4, t, k, cfg).Some? {
      CascadeStopsAtFirstOwner(UidSteps(t), Runner(t, k, cfg), 0);
    } else {
      CascadeFirstFound(UidSteps(t), Runner(t, k, cfg));
    }
  }
}
