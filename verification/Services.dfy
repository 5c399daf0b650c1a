/** What the daemons are configured with, and which interfaces dhcpd serves (netcli/internal/render/services.go). */
module Services {
  import opened Basics
  import opened Addresses
  import opened Config

  type DhcpdConf = map<string, Pool>

  /** hostapd.conf and wpa_supplicant.conf, as the values they are rendered from. */
  datatype WifiConf =
    | HostapdConf(ifn: Name, wireless: Wireless, bridge: Name)
    | WpaConf(wireless: Wireless)

  /** The subnets of dhcpd.conf: a pool without a network is left out. */
  function SubnetsOf(c: Config): DhcpdConf {
    map n | n in c.pools && c.pools[n].network.Some? :: c.pools[n]
  }

  /** Some address of `i` lies on the pool's subnet, with the same prefix length. */
  ghost predicate Serves(i: Interface, p: Pool) {
    p.network.Some? && exists a: Prefix :: a in i.ipv4 && a.Masked() == p.network.value.Masked()
  }

  ghost predicate ServedBy(c: Config, n: Name) {
    n in c.interfaces && exists p :: p in c.pools && Serves(c.interfaces[n], c.pools[p])
  }

  ghost function ServingInterfaces(c: Config): set<Name> {
    set n | n in c.interfaces && ServedBy(c, n)
  }

  method OnSubnet(i: Interface, net: Prefix) returns (r: bool)
    ensures r <==> exists a: Prefix :: a in i.ipv4 && a.Masked() == net.Masked()
  {
    for k := 0 to |i.ipv4|
      invariant forall a: Prefix :: a in i.ipv4[..k] ==> a.Masked() != net.Masked()
    {
      if i.ipv4[k].Masked() == net.Masked() { return true; }
    }
    assert i.ipv4[..|i.ipv4|] == i.ipv4;
    return false;
  }

  /** The interfaces with an address on the pool's subnet. */
  method InterfacesFor(c: Config, p: Pool) returns (ifs: set<Name>)
    requires p.network.Some?
    ensures ifs == set n | n in c.interfaces && Serves(c.interfaces[n], p)
  {
    ifs := {};
    var todo := c.interfaces.Keys;
    while todo != {}
      invariant todo <= c.interfaces.Keys
      invariant ifs == set n | n in c.interfaces && n !in todo && Serves(c.interfaces[n], p)
      decreases todo
    {
      var n :| n in todo;
      var serves := OnSubnet(c.interfaces[n], p.network.value);
      if serves { ifs := ifs + {n}; }
      todo := todo - {n};
    }
  }

  ghost function ServedByPools(c: Config, pools: set<string>): set<Name> {
    set n, p | n in c.interfaces && p in pools && p in c.pools && Serves(c.interfaces[n], c.pools[p]) :: n
  }

  /** render.Dhcpd: the subnets and the set of interfaces dhcpd listens on. */
  method Dhcpd(c: Config) returns (conf: DhcpdConf, ifs: set<Name>)
    ensures conf == SubnetsOf(c)
    ensures forall n :: n in conf <==> n in c.pools && c.pools[n].network.Some?
    ensures forall n :: n in conf ==> conf[n] == c.pools[n]
    ensures ifs == ServingInterfaces(c)
  {
    conf, ifs := map[], {};
    var pools := c.pools.Keys;
    while pools != {}
      invariant pools <= c.pools.Keys
      invariant conf == map n | n in c.pools && n !in pools && c.pools[n].network.Some? :: c.pools[n]
      invariant ifs == ServedByPools(c, c.pools.Keys - pools)
      decreases pools
    {
      var name :| name in pools;
      var p := c.pools[name];
      if p.network.Some? {
        var served := InterfacesFor(c, p);
        conf, ifs := conf[name := p], ifs + served;
      }
      assert c.pools.Keys - (pools - {name}) == c.pools.Keys - pools + {name};
      pools := pools - {name};
    }
    assert c.pools.Keys - pools == c.pools.Keys;
  }
}
