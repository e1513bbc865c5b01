/**
 * The `get-network-info` handler of the Electron main process (main.js): the
 * first IPv4 interface that is not internal, in the order the host lists
 * its interfaces and their addresses, with the subnet prefix the renderer
 * scans.
 */
module NetworkInfo {
  import opened Wrappers
  import opened Text
  import Connector

  /** One address of an interface as `os.networkInterfaces()` reports it. */
  datatype Net = Net(family: string, internal: bool, address: string, netmask: string)

  /** The interfaces by name, in `Object.entries` order. */
  type Interfaces = seq<(string, seq<Net>)>

  /** The object the handler returns. */
  datatype Info = Info(iface: string, address: string, prefix: string, netmask: string)

  predicate Qualifies(n: Net)
  {
    n.family == "IPv4" && !n.internal
  }

  /** `ipParts.slice(0, 3).join('.') + '.'`. */
  function Prefix(address: string): (r: string)
    ensures EndsWith(r, ".")
    ensures |Split(address, '.')| <= 3 ==> r == address + "."
  {
    var parts := Split(address, '.');
    assert |parts| <= 3 ==> parts[..if |parts| < 3 then |parts| else 3] == parts;
    Join(parts[..if |parts| < 3 then |parts| else 3], '.') + "."
  }

  /** The result built from a qualifying address of interface `name`. */
  function InfoOf(name: string, n: Net): Info
  {
    Info(name, n.address, Prefix(n.address), n.netmask)
  }

  /** The inner loop: the first qualifying address of one interface. */
  function FirstNet(name: string, nets: seq<Net>): (r: Option<Info>)
    ensures r.None? <==> forall j :: 0 <= j < |nets| ==> !Qualifies(nets[j])
  {
    if |nets| == 0 then None
    else if Qualifies(nets[0]) then Some(InfoOf(name, nets[0]))
    else FirstNet(name, nets[1..])
  }

  /** The outer loop: the first interface with a qualifying address answers. */
  function FindInfo(ifaces: Interfaces): (r: Option<Info>)
  {
    if |ifaces| == 0 then None
    else
      match FirstNet(ifaces[0].0, ifaces[0].1)
      case Some(info) => Some(info)
      case None => FindInfo(ifaces[1..])
  }

  /** The handler; `None` for the interface list is an exception from `os.networkInterfaces`. */
  function GetNetworkInfo(ifaces: Option<Interfaces>): (r: Option<Info>)
    ensures ifaces.None? ==> r.None?
  {
    match ifaces
    case None => None
    case Some(list) => FindInfo(list)
  }

  /** Address `j` of interface `i` qualifies and no address before it (in enumeration order) does. */
  predicate FirstAt(ifaces: Interfaces, i: int, j: int)
  {
    0 <= i < |ifaces| && 0 <= j < |ifaces[i].1| && Qualifies(ifaces[i].1[j])
    && (forall a, b :: 0 <= a < i && 0 <= b < |ifaces[a].1| ==> !Qualifies(ifaces[a].1[b]))
    && (forall b :: 0 <= b < j ==> !Qualifies(ifaces[i].1[b]))
  }

  /** The first qualifying address of an interface is what the inner loop returns. */
  lemma {:induction false} FirstNetWins(name: string, nets: seq<Net>, j: nat)
    requires j < |nets| && Qualifies(nets[j]) && forall b :: 0 <= b < j ==> !Qualifies(nets[b])
    ensures FirstNet(name, nets) == Some(InfoOf(name, nets[j]))
  {
    if j > 0 {
      FirstNetWins(name, nets[1..], j - 1);
    }
  }

  /**
   * The first qualifying address in enumeration order wins: the result
   * carries its interface name, its address and netmask unchanged, and the
   * prefix of its address.
   */
  lemma {:induction false} FirstInterfaceWins(ifaces: Interfaces, i: nat, j: nat)
    requires FirstAt(ifaces, i, j)
    ensures GetNetworkInfo(Some(ifaces)) == Some(InfoOf(ifaces[i].0, ifaces[i].1[j]))
    ensures var r := GetNetworkInfo(Some(ifaces)).value;
      r.iface == ifaces[i].0 && r.address == ifaces[i].1[j].address && r.netmask == ifaces[i].1[j].netmask
  {
    if i == 0 {
      FirstNetWins(ifaces[0].0, ifaces[0].1, j);
    } else {
      assert FirstNet(ifaces[0].0, ifaces[0].1).None? by {
        assert forall b :: 0 <= b < |ifaces[0].1| ==> !Qualifies(ifaces[0].1[b]);
      }
      var rest := ifaces[1..];
      assert FirstAt(rest, i - 1, j) by {
        assert forall a :: 0 <= a < |rest| ==> rest[a] == ifaces[a + 1];
      }
      FirstInterfaceWins(rest, i - 1, j);
    }
  }

  /** The handler returns null exactly when no address of any interface qualifies. */
  lemma {:induction false} NullWhenNoneQualifies(ifaces: Interfaces)
    ensures GetNetworkInfo(Some(ifaces)).None? <==>
      forall a, b :: 0 <= a < |ifaces| && 0 <= b < |ifaces[a].1| ==> !Qualifies(ifaces[a].1[b])
  {
    if |ifaces| > 0 {
      var rest := ifaces[1..];
      NullWhenNoneQualifies(rest);
      assert forall a :: 0 <= a < |rest| ==> rest[a] == ifaces[a + 1];
    }
  }

  /** Joining two non-empty lists of parts puts the separator between the two joins. */
  lemma {:induction false} JoinAppend(a: seq<string>, b: seq<string>, c: char)
    requires |a| >= 1 && |b| >= 1
    ensures Join(a + b, c) == Join(a, c) + [c] + Join(b, c)
  {
    if |a| > 1 {
      JoinAppend(a[1..], b, c);
      assert (a + b)[1..] == a[1..] + b;
    }
  }

  /**
   * For an address with at least three dots the prefix is the address up to
   * and including its third dot, and it splits into the first three parts
   * and an empty last part.
   */
  lemma {:induction false} PrefixShape(address: string)
    requires |Split(address, '.')| >= 4
    ensures var parts := Split(address, '.');
      address == Prefix(address) + Join(parts[3..], '.')
      && Split(Prefix(address), '.') == parts[..3] + [""]
  {
    var parts := Split(address, '.');
    var head, tail := parts[..3], parts[3..];
    var p := Prefix(address);
    assert p == Join(head, '.') + ".";
    assert parts == head + tail;
    JoinAppend(head, tail, '.');
    assert address == p + Join(tail, '.');
    var quad := head + [""];
    JoinAppend(head, [""], '.');
    assert Join(quad, '.') == p;
    assert forall k :: 0 <= k < |quad| ==> '.' !in quad[k];
    SplitJoin(quad, '.');
  }

  /** For a dotted quad the prefix is the network `detect_networks` derives in the Python connector. */
  lemma {:induction false} PrefixAgreesWithConnector(address: string)
    requires |Split(address, '.')| == 4
    ensures Prefix(address) == Connector.NetworkOf(address)
  {
  }
}
