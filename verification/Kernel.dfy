/** The router's operating system as the applier sees it: what each command
    changes, when it is refused, and with what kind of message. */
module Kernel {
  import opened Basics
  import opened Addresses
  import opened Config
  import opened Services
  import Npf

  /** A wireless virtual interface's radio and mode, fixed when it is created. */
  datatype VapId = VapId(device: Name, mode: Mode)

  /** What ifconfig sets on an interface besides its addresses. */
  datatype Port = Port(up: bool, mtu: int, media: string, vlan: Option<Vlan>, ap: bool)

  /** The generated wireless files, and what the running daemons read. */
  datatype Wifi = Wifi(hostapdFile: Option<WifiConf>, wpaFile: Option<WifiConf>,
                       hostapd: Option<WifiConf>, wpa: Option<WifiConf>)

  /** One network interface and the daemons started for it. A foreign one, like lo0, is looked after by
      the system itself. */
  datatype Slot = Slot(present: bool, vap: Option<VapId>, port: Port, addrs: set<Prefix>, dhcpcd: bool, wifi: Wifi,
                       foreign: bool)

  const NO_PORT := Port(false, 0, "", None, false)
  const ABSENT := Slot(false, None, NO_PORT, {}, false, Wifi(None, None, None, None), false)

  datatype Host = Host(hostname: string, resolv: Option<(string, seq<Addr>)>, forward4: bool, forward6: bool)

  datatype Packetfilter = Packetfilter(file: Option<Npf.Conf>, ruleset: Option<Npf.Conf>, on: bool)

  datatype DhcpServer = DhcpServer(file: Option<DhcpdConf>, leases: bool, running: Option<(DhcpdConf, set<Name>)>)

  /** What does not belong to one interface. */
  datatype System = System(host: Host, routes: set<Route>, npf: Packetfilter, dhcpd: DhcpServer)

  /** `links` holds the (bridge, member) pairs. */
  datatype Kernel = Kernel(slots: map<Name, Slot>, links: set<(Name, Name)>, sys: System)

  function At(k: Kernel, n: Name): Slot { if n in k.slots then k.slots[n] else ABSENT }

  datatype IfOp =
    | Create(vap: Option<VapId>) | Destroy
    | VlanUnset | VlanSet(vlan: Vlan) | MediaOpt(on: bool) | SetMtu(mtu: int) | SetMedia(media: string)
    | AddAddr(prefix: Prefix) | DelAddr(addr: Addr) | Up | Down
    | DhcpcdStart | DhcpcdStop
    | StopHostapd | StopWpa | WriteHostapd(conf: WifiConf) | WriteWpa(conf: WifiConf) | StartHostapd | StartWpa

  datatype Cmd =
    | OnIf(ifn: Name, op: IfOp)
    | BrAdd(bridge: Name, member: Name) | BrDel(bridge: Name, member: Name)
    | SetHostname(hostname: string) | WriteResolv(domain: string, servers: seq<Addr>)
    | SetForward4(on: bool) | SetForward6(on: bool)
    | RouteAdd(route: Route) | RouteDel(prefix: Prefix)
    | WriteNpf(conf: Npf.Conf) | NpfValidate | NpfReload | NpfStart
    | StopDhcpd | WriteDhcpd(subnets: DhcpdConf) | WriteLeases | StartDhcpd(ifs: set<Name>)

  /** The kinds of error text that `step.run` tells apart: "exists", one of the
      messages for an object that is gone, "already" running, and the rest. */
  datatype Msg = Exists | Missing | Already | Other

  datatype Verdict = Fine | Fails(msg: Msg)

  function HostsOf(addrs: set<Prefix>): set<Addr> { set p | p in addrs :: p.addr }

  function DestinationsOf(routes: set<Route>): set<Prefix> { set r | r in routes :: r.prefix }

  function OpVerdict(s: Slot, op: IfOp): Verdict {
    match op
    case Create(_) => if s.present then Fails(Exists) else Fine
    case DhcpcdStart => if !s.present then Fails(Other) else if s.dhcpcd then Fails(Exists) else Fine
    case DhcpcdStop => if s.dhcpcd then Fine else Fails(Missing)
    case StopHostapd => Fine
    case StopWpa => Fine
    case WriteHostapd(_) => Fine
    case WriteWpa(_) => Fine
    case StartHostapd => if s.present && s.wifi.hostapdFile.Some? && s.wifi.hostapd.None? then Fine else Fails(Other)
    case StartWpa => if s.present && s.wifi.wpaFile.Some? && s.wifi.wpa.None? then Fine else Fails(Other)
    case VlanUnset => if s.present && s.port.vlan.Some? then Fine else Fails(Missing)
    case AddAddr(p) => if !s.present then Fails(Missing) else if p.addr in HostsOf(s.addrs) then Fails(Exists) else Fine
    case DelAddr(a) => if s.present && a in HostsOf(s.addrs) then Fine else Fails(Missing)
    case _ => if s.present then Fine else Fails(Missing)
  }

  function OpEffect(s: Slot, op: IfOp): Slot {
    match op
    case Create(vap) => s.(present := true, vap := vap)
    case Destroy => s.(present := false, vap := None, port := NO_PORT, addrs := {})
    case VlanUnset => s.(port := s.port.(vlan := None))
    case VlanSet(v) => s.(port := s.port.(vlan := Some(v)))
    case MediaOpt(on) => s.(port := s.port.(ap := on))
    case SetMtu(mtu) => s.(port := s.port.(mtu := mtu))
    case SetMedia(media) => s.(port := s.port.(media := media))
    case AddAddr(p) => s.(addrs := s.addrs + {p})
    case DelAddr(a) => s.(addrs := set p | p in s.addrs && p.addr != a)
    case Up => s.(port := s.port.(up := true))
    case Down => s.(port := s.port.(up := false))
    case DhcpcdStart => s.(dhcpcd := true)
    case DhcpcdStop => s.(dhcpcd := false)
    case StopHostapd => s.(wifi := s.wifi.(hostapd := None))
    case StopWpa => s.(wifi := s.wifi.(wpa := None))
    case WriteHostapd(conf) => s.(wifi := s.wifi.(hostapdFile := Some(conf)))
    case WriteWpa(conf) => s.(wifi := s.wifi.(wpaFile := Some(conf)))
    case StartHostapd => s.(wifi := s.wifi.(hostapd := s.wifi.hostapdFile))
    case StartWpa => s.(wifi := s.wifi.(wpa := s.wifi.wpaFile))
  }

  function VerdictOf(k: Kernel, c: Cmd): Verdict {
    match c
    case OnIf(n, VlanSet(v)) => if At(k, n).present && At(k, v.parent).present then Fine else Fails(Missing)
    case OnIf(n, op) => OpVerdict(At(k, n), op)
    case BrAdd(b, m) =>
      if !At(k, b).present || !At(k, m).present then Fails(Missing)
      else if (b, m) in k.links then Fails(Exists)
      else if exists l :: l in k.links && l.1 == m then Fails(Other) else Fine
    case BrDel(b, m) => if (b, m) in k.links then Fine else Fails(Missing)
    case _ => SystemVerdict(k.sys, c)
  }

  function SystemVerdict(s: System, c: Cmd): Verdict {
    match c
    case RouteAdd(r) => if r.prefix in DestinationsOf(s.routes) then Fails(Exists) else Fine
    case RouteDel(p) => if p in DestinationsOf(s.routes) then Fine else Fails(Missing)
    case NpfReload => if s.npf.file.Some? then Fine else Fails(Other)
    case NpfStart => if s.npf.on then Fails(Already) else Fine
    case StartDhcpd(_) => if s.dhcpd.file.Some? && s.dhcpd.leases && s.dhcpd.running.None? then Fine else Fails(Other)
    case _ => Fine
  }

  /** Destroying an interface also releases it from every bridge. */
  function EffectOf(k: Kernel, c: Cmd): Kernel {
    match c
    case OnIf(n, Destroy) => Kernel(k.slots[n := OpEffect(At(k, n), Destroy)], Without(k.links, n), k.sys)
    case OnIf(n, op) => k.(slots := k.slots[n := OpEffect(At(k, n), op)])
    case BrAdd(b, m) => k.(links := k.links + {(b, m)})
    case BrDel(b, m) => k.(links := k.links - {(b, m)})
    case _ => k.(sys := SystemEffect(k.sys, c))
  }

  function SystemEffect(s: System, c: Cmd): System {
    match c
    case SetHostname(h) => s.(host := s.host.(hostname := h))
    case WriteResolv(d, servers) => s.(host := s.host.(resolv := Some((d, servers))))
    case SetForward4(on) => s.(host := s.host.(forward4 := on))
    case SetForward6(on) => s.(host := s.host.(forward6 := on))
    case RouteAdd(r) => s.(routes := s.routes + {r})
    case RouteDel(p) => s.(routes := set r | r in s.routes && r.prefix != p)
    case WriteNpf(conf) => s.(npf := s.npf.(file := Some(conf)))
    case NpfReload => s.(npf := s.npf.(ruleset := s.npf.file))
    case NpfStart => s.(npf := s.npf.(on := true))
    case StopDhcpd => s.(dhcpd := s.dhcpd.(running := None))
    case WriteDhcpd(conf) => s.(dhcpd := s.dhcpd.(file := Some(conf)))
    case WriteLeases => s.(dhcpd := s.dhcpd.(leases := true))
    case StartDhcpd(ifs) =>
      s.(dhcpd := s.dhcpd.(running := if s.dhcpd.file.Some? then Some((s.dhcpd.file.value, ifs)) else None))
    case _ => s
  }

  function Without(links: set<(Name, Name)>, n: Name): set<(Name, Name)> {
    set l | l in links && l.0 != n && l.1 != n
  }

  /** The interface a command acts on, if it acts on one. */
  function Target(c: Cmd): Option<Name> {
    match c
    case OnIf(n, _) => Some(n)
    case BrAdd(b, _) => Some(b)
    case BrDel(b, _) => Some(b)
    case _ => None
  }
}
