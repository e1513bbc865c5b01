/**
 * The single-device prototype `ArduinoConnector` (arduino_connector.py): a
 * table of saved dispensers, one "current" dispenser, the subnet prefix to
 * scan, and the `last_connected` record it uses to reconnect. This module
 * holds the state as a value and the operations on it; `ConnectorApp`
 * updates the same state in place. Replies to GET requests, the host's
 * address list and the order in which the scan threads finish are inputs.
 */
module Connector {
  import opened Wrappers
  import opened Text
  import opened Ordered
  import opened Devices

  /** `saved_connections[mac]`. */
  datatype Entry = Entry(ip: Ip, nickname: string)

  /** A `saved_connections` dict with its keys in insertion order. */
  datatype SavedDict = SavedDict(entries: map<Mac, Entry>, order: seq<Mac>)

  /** A `{"mac": …, "ip": …}` record; either field may be `None`. */
  datatype LastConnected = LastConnected(mac: Option<Mac>, ip: Option<Ip>)

  /**
   * `connections.json`. `connections` is `None` when the key is missing;
   * `last` is `None` for `null`, a missing key, or an empty record (all three
   * are falsy and are never read further).
   */
  datatype StoredFile = StoredFile(connections: Option<SavedDict>, last: Option<LastConnected>)

  datatype ConnState = ConnState(
    saved: map<Mac, Entry>, savedOrder: seq<Mac>,   // saved_connections
    currentIp: Option<Ip>,
    currentDevice: Option<Mac>,
    networkPrefix: Option<string>,
    networks: seq<string>,                          // available_networks
    lastConnected: Option<LastConnected>,
    ipRows: seq<string>,                            // the ip_list listbox
    savedRows: seq<string>,                         // the saved_list listbox
    file: Option<StoredFile>)                       // connections.json

  /** Python truthiness of an optional string: present and not empty. */
  predicate Truthy(o: Option<string>)
  {
    o.Some? && o.value != ""
  }

  predicate ValidDict(d: SavedDict)
  {
    Enumerates(d.order, d.entries.Keys)
  }

  /** The key order lists the saved MACs, and the saved-devices list shows them. */
  predicate Valid(s: ConnState)
  {
    Enumerates(s.savedOrder, s.saved.Keys) && s.savedRows == SavedRows(s.saved, s.savedOrder)
  }

  /** The fields as `__init__` sets them, before anything is loaded. */
  function Initial(): (s: ConnState)
    ensures Valid(s) && s.currentIp.None? && s.currentDevice.None? && s.networkPrefix.None?
  {
    ConnState(map[], [], None, None, None, [], None, [], [], None)
  }

  // ---------------------------------------------------------------------------
  // Listbox rows (arduino_connector.py:203, 222-239, 269-273, 294-295)

  const Marker: string := "(MAC: "

  /** A row of the discovered-devices list. */
  function IpRow(ip: Ip, mac: Mac): string
  {
    ip + " " + Marker + mac + ")"
  }

  /** A row of the saved-devices list. */
  function SavedRow(nickname: string, mac: Mac): string
  {
    nickname + " " + Marker + mac + ")"
  }

  /**
   * `row.split("(MAC: ")[1][:-1]`: the text between the first and the second
   * marker (or the end), without its last character; `None` where Python
   * raises IndexError because the marker is absent.
   */
  function ParseMac(row: string): (r: Option<Mac>)
    ensures r.None? <==> !Contains(row, Marker)
  {
    match IndexOf(row, Marker)
    case None => None
    case Some(i) =>
      var rest := row[i + |Marker|..];
      var piece := match IndexOf(rest, Marker) case None => rest case Some(j) => rest[..j];
      Some(if |piece| == 0 then piece else piece[..|piece| - 1])
  }

  /** `row.split()[0]`: the address at the head of a discovered-devices row. */
  function ParseIp(row: string): (r: Option<Ip>)
    ensures r.None? <==> AllWhite(row)
  {
    FirstToken(row)
  }

  /** The head, the marker and the MAC of a row written by `IpRow` or `SavedRow`. */
  lemma {:induction false} RowLayout(head: string, mac: Mac)
    requires '(' !in head && '(' !in mac
    ensures var row := head + " " + Marker + mac + ")";
      IndexOf(row, Marker) == Some(|head| + 1) && row[|head| + 1 + |Marker|..] == mac + ")"
  {
    var row := head + " " + Marker + mac + ")";
    var p := |head| + 1;
    RowOpen(head, mac);
    assert row[p..p + |Marker|] == Marker;
    FirstMarker(row, p);
    assert row[p + |Marker|..] == mac + ")";
  }

  /** The only `(` of a row is the marker's. */
  lemma {:induction false} RowOpen(head: string, mac: Mac)
    requires '(' !in head && '(' !in mac
    ensures OnlyOpenAt(head + " " + Marker + mac + ")", |head| + 1)
  {
    var tail := " " + Marker + mac + ")";
    var row := head + tail;
    assert row == head + " " + Marker + mac + ")";
    assert OnlyOpenAt(tail, 1) by {
      assert forall k :: 7 <= k < |tail| - 1 ==> tail[k] == mac[k - 7];
    }
    assert forall k :: 0 <= k < |head| ==> row[k] == head[k];
    assert forall k :: |head| <= k < |row| ==> row[k] == tail[k - |head|];
  }

  /** A marker at the only `(` of a string is its first marker. */
  lemma {:induction false} FirstMarker(row: string, p: nat)
    requires OnlyOpenAt(row, p) && p + |Marker| <= |row| && row[p..p + |Marker|] == Marker
    ensures IndexOf(row, Marker) == Some(p)
  {
    ContainsAt(row, Marker, p);
    var r := IndexOf(row, Marker);
    assert row[r.value] == '(' by {
      assert row[r.value..r.value + |Marker|][0] == Marker[0];
    }
  }

  /** A string without `(` holds no marker. */
  lemma {:induction false} NoMarker(s: string)
    requires '(' !in s
    ensures !Contains(s, Marker) && IndexOf(s, Marker) == None
    decreases |s|
  {
    if |s| >= |Marker| {
      assert s[..|Marker|][0] == s[0];
    }
    if |s| > 0 {
      assert forall k :: 0 <= k < |s| - 1 ==> s[1..][k] == s[k + 1];
      NoMarker(s[1..]);
    }
  }

  /** The only `(` of `s` is at index `p`. */
  predicate OnlyOpenAt(s: string, p: nat)
  {
    p < |s| && s[p] == '(' && forall k :: 0 <= k < |s| && s[k] == '(' ==> k == p
  }

  /** The saved-devices row of a MAC without `(` reads back as that MAC. */
  lemma {:induction false} SavedRowRoundTrip(nickname: string, mac: Mac)
    requires '(' !in nickname && '(' !in mac
    ensures ParseMac(SavedRow(nickname, mac)) == Some(mac)
  {
    RowLayout(nickname, mac);
    var rest := mac + ")";
    NoMarker(rest);
    assert rest[..|rest| - 1] == mac;
  }

  /**
   * A discovered-devices row reads back as its address and its MAC when the
   * address is a non-empty run without whitespace and neither has a `(`.
   */
  lemma {:induction false} IpRowRoundTrip(ip: Ip, mac: Mac)
    requires ip != [] && forall i :: 0 <= i < |ip| ==> !IsWhite(ip[i])
    requires '(' !in ip && '(' !in mac
    ensures ParseIp(IpRow(ip, mac)) == Some(ip)
    ensures ParseMac(IpRow(ip, mac)) == Some(mac)
  {
    IpRowHead(ip, mac);
    SavedRowRoundTrip(ip, mac);
    assert IpRow(ip, mac) == SavedRow(ip, mac);
  }

  lemma {:induction false} IpRowHead(ip: Ip, mac: Mac)
    requires ip != [] && forall i :: 0 <= i < |ip| ==> !IsWhite(ip[i])
    ensures ParseIp(IpRow(ip, mac)) == Some(ip)
  {
    assert IpRow(ip, mac) == ip + (" " + Marker + mac + ")");
    FirstTokenOf(ip, " " + Marker + mac + ")");
  }

  /** A row contains the MAC it was written with. */
  lemma {:induction false} RowContainsMac(head: string, mac: Mac)
    ensures Contains(head + " " + Marker + mac + ")", mac)
    ensures !AllWhite(head + " " + Marker + mac + ")")
  {
    var row := head + " " + Marker + mac + ")";
    var k := |head| + 1 + |Marker|;
    assert row[k..k + |mac|] == mac;
    ContainsAt(row, mac, k);
    assert row[|head| + 1] == '(';
  }

  /** The index of the first row that contains `x` (`x in row`), if any. */
  function FirstContaining(rows: seq<string>, x: string): (r: Option<nat>)
    ensures r.Some? ==> r.value < |rows| && Contains(rows[r.value], x)
                        && forall t :: 0 <= t < r.value ==> !Contains(rows[t], x)
    ensures r.None? <==> forall t :: 0 <= t < |rows| ==> !Contains(rows[t], x)
  {
    if |rows| == 0 then None
    else if Contains(rows[0], x) then Some(0)
    else
      match FirstContaining(rows[1..], x)
      case None => None
      case Some(i) => Some(i + 1)
  }

  /** `update_saved_list`: one row per saved dispenser, in insertion order. */
  function SavedRows(entries: map<Mac, Entry>, order: seq<Mac>): (r: seq<string>)
    requires forall m :: m in order ==> m in entries
    ensures |r| == |order|
    ensures forall i :: 0 <= i < |order| ==> r[i] == SavedRow(entries[order[i]].nickname, order[i])
  {
    seq(|order|, i requires 0 <= i < |order| => SavedRow(entries[order[i]].nickname, order[i]))
  }

  /** Selecting saved row `i` selects the `i`-th saved dispenser when no nickname or MAC has a `(`. */
  lemma {:induction false} SavedRowSelects(entries: map<Mac, Entry>, order: seq<Mac>, i: nat)
    requires forall m :: m in order ==> m in entries
    requires i < |order| && '(' !in order[i] && '(' !in entries[order[i]].nickname
    ensures ParseMac(SavedRows(entries, order)[i]) == Some(order[i])
  {
    SavedRowRoundTrip(entries[order[i]].nickname, order[i]);
  }

  // ---------------------------------------------------------------------------
  // Persistence (arduino_connector.py:245-267)

  /** The `last_connected` record `save_connections` writes. */
  function LastRecord(s: ConnState): (r: Option<LastConnected>)
    ensures r.Some? <==> Truthy(s.currentDevice)
    ensures r.Some? ==> r.value.mac == s.currentDevice && r.value.ip == s.currentIp
  {
    if Truthy(s.currentDevice) then Some(LastConnected(s.currentDevice, s.currentIp)) else None
  }

  /** `save_connections`: the file gets the saved table and the current dispenser, nothing else changes. */
  function SaveConnections(s: ConnState): (r: ConnState)
    ensures r == s.(file := r.file)
    ensures r.file == Some(StoredFile(Some(SavedDict(s.saved, s.savedOrder)), LastRecord(s)))
  {
    s.(file := Some(StoredFile(Some(SavedDict(s.saved, s.savedOrder)), LastRecord(s))))
  }

  /** `load_connections`; `None` is a missing file. */
  function LoadConnections(s: ConnState, file: Option<StoredFile>): (r: ConnState)
    requires file.Some? && file.value.connections.Some? ==> ValidDict(file.value.connections.value)
    requires Valid(s)
    ensures Valid(r)
    ensures file.None? ==> r == s.(lastConnected := None)
    ensures file.Some? ==>
      r.lastConnected == file.value.last
      && r.saved == (if file.value.connections.Some? then file.value.connections.value.entries else map[])
      && r.savedRows == SavedRows(r.saved, r.savedOrder)
    ensures r == s.(saved := r.saved, savedOrder := r.savedOrder, lastConnected := r.lastConnected,
                    savedRows := r.savedRows)
  {
    match file
    case None => s.(lastConnected := None)
    case Some(f) =>
      var d := f.connections.GetOr(SavedDict(map[], []));
      s.(saved := d.entries, savedOrder := d.order, lastConnected := f.last,
         savedRows := SavedRows(d.entries, d.order))
  }

  /**
   * Loading what `save_connections` wrote gives back the saved table, and the
   * current dispenser as `last_connected` (none when there was no current one).
   */
  lemma {:induction false} SaveLoadRoundTrip(s: ConnState, t: ConnState)
    requires Valid(s) && Valid(t)
    ensures var r := LoadConnections(t, SaveConnections(s).file);
      r.saved == s.saved && r.savedOrder == s.savedOrder
      && r.lastConnected == (if Truthy(s.currentDevice) then Some(LastConnected(s.currentDevice, s.currentIp)) else None)
  {
  }

  // ---------------------------------------------------------------------------
  // Network prefix (arduino_connector.py:99-148)

  /** A `getaddrinfo` entry's socket address: its host and its tuple length (2 for IPv4, 4 for IPv6). */
  datatype SockAddr = SockAddr(host: string, arity: nat)

  /** An IPv4 address outside `127.`. */
  predicate Qualifies(a: SockAddr)
  {
    a.arity == 2 && !StartsWith(a.host, "127.")
  }

  /** `'.'.join(ip.split('.')[:-1]) + '.'`: the address without its last dot-separated part. */
  function NetworkOf(ip: string): (r: string)
    ensures EndsWith(r, ".")
  {
    var parts := Split(ip, '.');
    Join(parts[..|parts| - 1], '.') + "."
  }

  /** Joining a list is joining all but its last part, then the separator and the last part. */
  lemma {:induction false} JoinSnoc(parts: seq<string>, c: char)
    requires |parts| >= 2
    ensures Join(parts, c) == Join(parts[..|parts| - 1], c) + [c] + parts[|parts| - 1]
  {
    if |parts| > 2 {
      JoinSnoc(parts[1..], c);
      assert parts[1..][..|parts| - 2] == parts[..|parts| - 1][1..];
    }
  }

  /**
   * The network of an address with a dot is the address up to and including
   * its last dot; an address without a dot gives the bare `.`.
   */
  lemma {:induction false} NetworkOfPrefix(ip: string)
    ensures '.' !in ip ==> NetworkOf(ip) == "."
    ensures '.' in ip ==> var parts := Split(ip, '.');
      ip == NetworkOf(ip) + parts[|parts| - 1] && '.' !in parts[|parts| - 1]
  {
    if '.' in ip {
      NetworkOfDot(ip);
    } else {
      NetworkOfNoDot(ip);
    }
  }

  lemma {:induction false} NetworkOfNoDot(ip: string)
    requires '.' !in ip
    ensures NetworkOf(ip) == "."
  {
    assert IndexOfChar(ip, '.').None?;
    assert Split(ip, '.') == [ip];
    assert Join([], '.') == "";
  }

  lemma {:induction false} NetworkOfDot(ip: string)
    requires '.' in ip
    ensures var parts := Split(ip, '.');
      ip == NetworkOf(ip) + parts[|parts| - 1] && '.' !in parts[|parts| - 1]
  {
    var parts := Split(ip, '.');
    var n := |parts|;
    if n == 1 {
      assert false;
    }
    var init := Join(parts[..n - 1], '.');
    assert NetworkOf(ip) == init + ".";
    JoinSnoc(parts, '.');
    assert ip == init + ['.'] + parts[n - 1];
    assert '.' !in parts[n - 1];
  }

  /** `available_networks` after the loop over the host's addresses: first-seen order, no repeats. */
  function Networks(addrs: seq<SockAddr>): (r: seq<string>)
    ensures NoDup(r)
    ensures forall x :: x in r <==> exists i :: 0 <= i < |addrs| && Qualifies(addrs[i]) && NetworkOf(addrs[i].host) == x
  {
    if |addrs| == 0 then []
    else
      var init := addrs[..|addrs| - 1];
      var a := addrs[|addrs| - 1];
      var r0 := Networks(init);
      var r := if Qualifies(a) then Put(r0, NetworkOf(a.host)) else r0;
      assert forall x :: x in r <==> exists i :: 0 <= i < |addrs| && Qualifies(addrs[i]) && NetworkOf(addrs[i].host) == x by {
        forall x
          ensures x in r <==> exists i :: 0 <= i < |addrs| && Qualifies(addrs[i]) && NetworkOf(addrs[i].host) == x
        {
          if x in r0 {
            var i :| 0 <= i < |init| && Qualifies(init[i]) && NetworkOf(init[i].host) == x;
            assert addrs[i] == init[i];
          } else if x in r {
            assert Qualifies(addrs[|addrs| - 1]) && NetworkOf(addrs[|addrs| - 1].host) == x;
          } else {
            forall i | 0 <= i < |addrs| && Qualifies(addrs[i])
              ensures NetworkOf(addrs[i].host) != x
            {
              if i < |init| {
                assert addrs[i] == init[i];
              }
            }
          }
        }
      }
      r
  }

  /** Entry `i` is the first qualifying address. */
  predicate FirstQualifying(addrs: seq<SockAddr>, i: int)
  {
    0 <= i < |addrs| && Qualifies(addrs[i]) && forall t :: 0 <= t < i ==> !Qualifies(addrs[t])
  }

  /** Without a qualifying address there is no network. */
  lemma {:induction false} NetworksNone(addrs: seq<SockAddr>)
    requires forall t :: 0 <= t < |addrs| ==> !Qualifies(addrs[t])
    ensures Networks(addrs) == []
  {
    if |addrs| > 0 {
      NetworksNone(addrs[..|addrs| - 1]);
    }
  }

  /** The first network is that of the first qualifying address. */
  lemma {:induction false} NetworksHead(addrs: seq<SockAddr>, i: int)
    requires FirstQualifying(addrs, i)
    ensures |Networks(addrs)| > 0 && Networks(addrs)[0] == NetworkOf(addrs[i].host)
  {
    var init := addrs[..|addrs| - 1];
    if i == |addrs| - 1 {
      NetworksNone(init);
    } else {
      assert FirstQualifying(init, i) by {
        assert forall t :: 0 <= t < |init| ==> init[t] == addrs[t];
      }
      NetworksHead(init, i);
    }
  }

  /**
   * `detect_networks`; `None` is an exception from `gethostname` or
   * `getaddrinfo`. `true` means a scan follows; `false` means the manual
   * dialog opens instead.
   */
  function DetectNetworks(s: ConnState, addrs: Option<seq<SockAddr>>): (r: (ConnState, bool))
    ensures addrs.None? ==> r == (s, false)
    ensures addrs.Some? ==>
      r.0.networks == Networks(addrs.value)
      && (r.1 <==> |r.0.networks| > 0)
      && (r.1 <==> exists i :: 0 <= i < |addrs.value| && Qualifies(addrs.value[i]))
      && (r.1 ==> r.0.networkPrefix == Some(r.0.networks[0]))
      && (!r.1 ==> r.0.networkPrefix == s.networkPrefix && r.0.networks == [])
    ensures r.0 == s.(networks := r.0.networks, networkPrefix := r.0.networkPrefix)
  {
    match addrs
    case None => (s, false)
    case Some(a) =>
      var n := Networks(a);
      if |n| > 0 then
        assert n[0] in n;
        (s.(networks := n, networkPrefix := Some(n[0])), true)
      else
        assert forall i :: 0 <= i < |a| && Qualifies(a[i]) ==> NetworkOf(a[i].host) in n;
        (s.(networks := n), false)
  }

  /** The prefix `detect_networks` picks is the network of the first qualifying address. */
  lemma {:induction false} DetectPicksFirst(s: ConnState, addrs: seq<SockAddr>, i: int)
    requires FirstQualifying(addrs, i)
    ensures DetectNetworks(s, Some(addrs)).1
    ensures DetectNetworks(s, Some(addrs)).0.networkPrefix == Some(NetworkOf(addrs[i].host))
  {
    NetworksHead(addrs, i);
  }

  /** `on_ok` of the manual dialog: accept a stripped input ending in `.`; `true` means a scan follows. */
  function OnOk(s: ConnState, input: string): (r: (ConnState, bool))
    ensures r.1 <==> Trim(input) != "" && EndsWith(Trim(input), ".")
    ensures !r.1 ==> r.0 == s
    ensures r.1 ==>
      r.0.networkPrefix == Some(Trim(input)) && Trim(input) in r.0.networks
      && r.0.networks == (if Trim(input) in s.networks then s.networks else s.networks + [Trim(input)])
    ensures r.0 == s.(networkPrefix := r.0.networkPrefix, networks := r.0.networks)
  {
    var prefix := Trim(input);
    if prefix != "" && EndsWith(prefix, ".") then
      (s.(networkPrefix := Some(prefix), networks := Put(s.networks, prefix)), true)
    else (s, false)
  }

  // ---------------------------------------------------------------------------
  // The scan (arduino_connector.py:168-218)

  /**
   * What one scan sees: `probe(ip)` is the reply to `GET http://ip`, and
   * `arrival` lists the suffix indices (0 for `.1` … 253 for `.254`) in the
   * order the 254 probe threads wrote into `results`.
   */
  datatype Env = Env(probe: Ip -> Reply, arrival: seq<nat>)

  /** Every probe thread finishes exactly once. */
  predicate ValidEnv(env: Env)
  {
    NoDup(env.arrival)
    && (forall j :: 0 <= j < |env.arrival| ==> env.arrival[j] < 254)
    && (forall n :: 0 <= n < 254 ==> n in env.arrival)
  }

  /** `check_ip`: the body of an HTTP 200 reply whose `status` is `ready`, else `None`. */
  function ReadyBody(reply: Reply): (r: Option<Body>)
    ensures r.Some? <==> reply.Http? && reply.code == 200 && reply.body.status == Some("ready")
    ensures r.Some? ==> r.value == reply.body
  {
    if reply.Http? && reply.code == 200 && reply.body.status == Some("ready") then Some(reply.body) else None
  }

  /** An entry of `results`: the probed address and what `check_ip` returned. */
  type ScanEntry = (Ip, Option<Body>)

  /** The `results` dict in enumeration order. */
  function Results(prefix: string, env: Env): (r: seq<ScanEntry>)
    requires ValidEnv(env)
    ensures |r| == |env.arrival|
    ensures forall j :: 0 <= j < |r| ==>
      r[j].0 == prefix + NatToString(env.arrival[j] + 1) && r[j].1 == ReadyBody(env.probe(r[j].0))
  {
    seq(|env.arrival|, j requires 0 <= j < |env.arrival| =>
      var ip := prefix + NatToString(env.arrival[j] + 1);
      (ip, ReadyBody(env.probe(ip))))
  }

  predicate Reports(e: ScanEntry, mac: Mac)
  {
    e.1.Some? && e.1.value.mac == Some(mac)
  }

  /** Entry `j` reports `mac` and no later entry does. */
  predicate LastFor(results: seq<ScanEntry>, mac: Mac, j: int)
  {
    0 <= j < |results| && Reports(results[j], mac) && forall t :: j < t < |results| ==> !Reports(results[t], mac)
  }

  /** `found_devices`, the rows written to the discovered-devices list, and whether the loop ran to its end. */
  datatype Found = Found(devices: map<Mac, Ip>, rows: seq<string>, ok: bool)

  /** A ready entry that carries a `mac`. */
  predicate Listed(e: ScanEntry)
  {
    e.1.Some? && e.1.value.mac.Some?
  }

  /** The row `scan_network` writes for a listed entry. */
  function RowFor(e: ScanEntry): string
    requires Listed(e)
  {
    IpRow(e.0, e.1.value.mac.value)
  }

  /**
   * The loop over `results`: every ready body adds its `mac`, the later
   * address of a MAC replacing the earlier one, and a row; a ready body
   * without `mac` raises KeyError and ends the loop (`ok` false).
   */
  function FoundFold(results: seq<ScanEntry>): (r: Found)
    ensures r.ok <==> forall j :: 0 <= j < |results| && results[j].1.Some? ==> Listed(results[j])
  {
    if |results| == 0 then Found(map[], [], true)
    else
      var n := |results| - 1;
      var f := FoundFold(results[..n]);
      assert forall j :: 0 <= j < n ==> results[..n][j] == results[j];
      var e := results[n];
      if !f.ok || e.1.None? then f
      else if !Listed(e) then f.(ok := false)
      else Found(f.devices[e.1.value.mac.value := e.0], f.rows + [RowFor(e)], true)
  }

  /**
   * Every row written is that of a listed entry; when the loop runs to its
   * end, every ready entry has its row.
   */
  lemma {:induction false} FoundRows(results: seq<ScanEntry>)
    ensures forall t :: 0 <= t < |FoundFold(results).rows| ==>
      exists j :: 0 <= j < |results| && Listed(results[j]) && FoundFold(results).rows[t] == RowFor(results[j])
    ensures FoundFold(results).ok ==>
      forall j :: 0 <= j < |results| && results[j].1.Some? ==> RowFor(results[j]) in FoundFold(results).rows
  {
    if |results| > 0 {
      var n := |results| - 1;
      var init := results[..n];
      FoundRows(init);
      var f0 := FoundFold(init);
      var f := FoundFold(results);
      assert forall j :: 0 <= j < n ==> init[j] == results[j];
      var e := results[n];
      forall t | 0 <= t < |FoundFold(results).rows|
        ensures exists j :: 0 <= j < |results| && Listed(results[j]) && FoundFold(results).rows[t] == RowFor(results[j])
      {
        if t < |f0.rows| {
          var j :| 0 <= j < |init| && Listed(init[j]) && f0.rows[t] == RowFor(init[j]);
          assert f.rows[t] == f0.rows[t];
          assert init[j] == results[j];
        } else {
          assert f.rows[t] == RowFor(e);
        }
      }
      if f.ok {
        forall j | 0 <= j < |results| && results[j].1.Some?
          ensures RowFor(results[j]) in f.rows
        {
          if j < n {
            assert init[j] == results[j];
            assert RowFor(init[j]) in f0.rows;
          }
        }
      }
    } else {
      assert FoundFold(results).rows == [];
    }
  }

  /**
   * When the loop runs to its end, `found_devices` holds exactly the MACs some
   * ready entry reported, each at the address of the last entry that did.
   */
  lemma {:induction false} FoundDevice(results: seq<ScanEntry>, k: Mac)
    requires FoundFold(results).ok
    ensures var f := FoundFold(results);
      (k in f.devices <==> exists j :: 0 <= j < |results| && Reports(results[j], k))
      && (k in f.devices ==> exists j :: LastFor(results, k, j) && f.devices[k] == results[j].0)
  {
    if |results| > 0 {
      var n := |results| - 1;
      var init := results[..n];
      var f0 := FoundFold(init);
      var f := FoundFold(results);
      assert forall j :: 0 <= j < n ==> init[j] == results[j];
      FoundDevice(init, k);
      var e := results[n];
      if Reports(e, k) {
        assert LastFor(results, k, n);
      } else {
        assert (k in f.devices <==> k in f0.devices) && (k in f.devices ==> f.devices[k] == f0.devices[k]);
        if k in f0.devices {
          var j :| LastFor(init, k, j) && f0.devices[k] == init[j].0;
          assert LastFor(results, k, j);
        }
        if j :| 0 <= j < |results| && Reports(results[j], k) {
          assert j < n && Reports(init[j], k);
        }
      }
    }
  }

  /** Once the loop has stopped on a KeyError, the later entries change nothing. */
  lemma {:induction false} FoundFoldStops(results: seq<ScanEntry>, k: nat)
    requires k <= |results| && !FoundFold(results[..k]).ok
    ensures FoundFold(results) == FoundFold(results[..k])
    decreases |results|
  {
    if k < |results| {
      var n := |results| - 1;
      assert results[..n][..k] == results[..k];
      FoundFoldStops(results[..n], k);
    } else {
      assert results[..k] == results;
    }
  }

  /**
   * `scan_network` up to the post-scan reconnect: nothing without a prefix;
   * otherwise the discovered-devices list is refilled from the replies.
   */
  function ScanCore(s: ConnState, env: Env): (r: (ConnState, Found))
    requires ValidEnv(env)
    ensures r.0 == s.(ipRows := r.0.ipRows)
    ensures !Truthy(s.networkPrefix) ==> r.0 == s && r.1 == Found(map[], [], true)
    ensures Truthy(s.networkPrefix) ==>
      r.1 == FoundFold(Results(s.networkPrefix.value, env)) && r.0.ipRows == r.1.rows
  {
    if !Truthy(s.networkPrefix) then (s, Found(map[], [], true))
    else
      var f := FoundFold(Results(s.networkPrefix.value, env));
      (s.(ipRows := f.rows), f)
  }

  /** A reply `check_ip` accepts, carrying `mac`. */
  predicate ReadyWith(reply: Reply, mac: Mac)
  {
    reply.Http? && reply.code == 200 && reply.body.status == Some("ready") && reply.body.mac == Some(mac)
  }

  /**
   * What a completed scan finds: exactly the MACs that some address
   * `prefix + n`, 1 <= n <= 254, reported in a `ready` HTTP 200 reply.
   */
  lemma {:induction false} ScanFindsReady(s: ConnState, env: Env, k: Mac)
    requires ValidEnv(env) && Truthy(s.networkPrefix)
    requires ScanCore(s, env).1.ok
    ensures k in ScanCore(s, env).1.devices <==>
      exists n :: 1 <= n <= 254 && ReadyWith(env.probe(s.networkPrefix.value + NatToString(n)), k)
  {
    var prefix := s.networkPrefix.value;
    var results := Results(prefix, env);
    var f := FoundFold(results);
    assert ScanCore(s, env).1 == f;
    FoundDevice(results, k);
    if k in f.devices {
      var j :| 0 <= j < |results| && Reports(results[j], k);
      ReportsReady(prefix, env, k, j);
      var n := env.arrival[j] + 1;
      assert 1 <= n <= 254 && ReadyWith(env.probe(prefix + NatToString(n)), k);
    }
    if n :| 1 <= n <= 254 && ReadyWith(env.probe(prefix + NatToString(n)), k) {
      ReadyReports(prefix, env, k, n);
    }
  }

  /** A scan entry that reports `k` comes from a `ready` reply carrying `k`, at an address of the range. */
  lemma {:induction false} ReportsReady(prefix: string, env: Env, k: Mac, j: nat)
    requires ValidEnv(env) && j < |env.arrival| && Reports(Results(prefix, env)[j], k)
    ensures 1 <= env.arrival[j] + 1 <= 254
    ensures ReadyWith(env.probe(prefix + NatToString(env.arrival[j] + 1)), k)
  {
  }

  /** An address of the range whose reply is `ready` with `k` gives a scan entry that reports `k`. */
  lemma {:induction false} ReadyReports(prefix: string, env: Env, k: Mac, n: int)
    requires ValidEnv(env) && 1 <= n <= 254 && ReadyWith(env.probe(prefix + NatToString(n)), k)
    ensures exists j :: 0 <= j < |Results(prefix, env)| && Reports(Results(prefix, env)[j], k)
  {
    var results := Results(prefix, env);
    assert n - 1 in env.arrival;
    var j :| 0 <= j < |env.arrival| && env.arrival[j] == n - 1;
    assert Reports(results[j], k);
  }

  /**
   * Each found MAC is kept at an address `prefix + n`, 1 <= n <= 254, whose
   * reply was `ready` with that MAC, and no reply written later carried it.
   */
  lemma {:induction false} ScanKeepsLater(s: ConnState, env: Env, k: Mac)
    requires ValidEnv(env) && Truthy(s.networkPrefix)
    requires ScanCore(s, env).1.ok && k in ScanCore(s, env).1.devices
    ensures var f := ScanCore(s, env).1; var results := Results(s.networkPrefix.value, env);
      exists j :: (LastFor(results, k, j) && f.devices[k] == results[j].0
                   && f.devices[k] == s.networkPrefix.value + NatToString(env.arrival[j] + 1)
                   && 1 <= env.arrival[j] + 1 <= 254
                   && ReadyWith(env.probe(f.devices[k]), k))
  {
    var results := Results(s.networkPrefix.value, env);
    var f := FoundFold(results);
    FoundDevice(results, k);
    var j :| LastFor(results, k, j) && f.devices[k] == results[j].0;
    assert f.devices[k] == s.networkPrefix.value + NatToString(env.arrival[j] + 1);
  }

  /** Changing addresses only leaves the saved-devices list as it was. */
  lemma {:induction false} SavedRowsKeepNames(a: map<Mac, Entry>, b: map<Mac, Entry>, order: seq<Mac>)
    requires forall m :: m in order ==> m in a && m in b && a[m].nickname == b[m].nickname
    ensures SavedRows(a, order) == SavedRows(b, order)
  {
  }

  // ---------------------------------------------------------------------------
  // Saving a discovered dispenser (arduino_connector.py:220-243)

  /** The text the nickname field shows before the user types. */
  const Placeholder: string := "기기 별명 입력"

  /** A row is selected, the stripped nickname is neither blank nor the placeholder, and the row parses. */
  predicate SaveAccepted(s: ConnState, sel: Option<nat>, nicknameInput: string)
    requires sel.Some? ==> sel.value < |s.ipRows|
  {
    sel.Some? && Trim(nicknameInput) != "" && Trim(nicknameInput) != Placeholder
    && ParseIp(s.ipRows[sel.value]).Some? && ParseMac(s.ipRows[sel.value]).Some?
  }

  /** `save_connection`: store the selected row's dispenser under the nickname, then write the file. */
  function SaveConnection(s: ConnState, sel: Option<nat>, nicknameInput: string): (r: ConnState)
    requires Valid(s) && (sel.Some? ==> sel.value < |s.ipRows|)
    ensures Valid(r)
    ensures !SaveAccepted(s, sel, nicknameInput) ==> r == s
    ensures SaveAccepted(s, sel, nicknameInput) ==>
      var row := s.ipRows[sel.value];
      var mac := ParseMac(row).value;
      r.saved == s.saved[mac := Entry(ParseIp(row).value, Trim(nicknameInput))]
      && r.savedOrder == Put(s.savedOrder, mac)
      && r.file == Some(StoredFile(Some(SavedDict(r.saved, r.savedOrder)), LastRecord(s)))
      && r == s.(saved := r.saved, savedOrder := r.savedOrder, savedRows := r.savedRows, file := r.file)
  {
    if !SaveAccepted(s, sel, nicknameInput) then s
    else
      var row := s.ipRows[sel.value];
      var mac := ParseMac(row).value;
      var saved := s.saved[mac := Entry(ParseIp(row).value, Trim(nicknameInput))];
      var order := Put(s.savedOrder, mac);
      var s1 := SaveConnections(s.(saved := saved, savedOrder := order));
      s1.(savedRows := SavedRows(saved, order))
  }

  /**
   * Saving a row the scan wrote stores that row's address and MAC under the
   * stripped nickname, and the file written holds it.
   */
  lemma {:induction false} SaveFromScanRow(s: ConnState, i: nat, nicknameInput: string, ip: Ip, mac: Mac)
    requires Valid(s) && i < |s.ipRows| && s.ipRows[i] == IpRow(ip, mac)
    requires ip != [] && (forall k :: 0 <= k < |ip| ==> !IsWhite(ip[k])) && '(' !in ip && '(' !in mac
    requires Trim(nicknameInput) != "" && Trim(nicknameInput) != Placeholder
    ensures var r := SaveConnection(s, Some(i), nicknameInput);
      mac in r.saved && r.saved[mac] == Entry(ip, Trim(nicknameInput)) && mac in r.savedOrder
      && r.file.Some? && r.file.value.connections == Some(SavedDict(r.saved, r.savedOrder))
  {
    IpRowRoundTrip(ip, mac);
  }

  // ---------------------------------------------------------------------------
  // Connecting (arduino_connector.py:286-353)

  /** The MAC of the selected saved row, when the row parses and names a saved dispenser. */
  function SelectedMac(s: ConnState, sel: Option<nat>): (r: Option<Mac>)
    requires sel.Some? ==> sel.value < |s.savedRows|
    ensures r.Some? <==> sel.Some? && ParseMac(s.savedRows[sel.value]).Some?
                         && ParseMac(s.savedRows[sel.value]).value in s.saved
    ensures r.Some? ==> r == ParseMac(s.savedRows[sel.value])
  {
    if sel.None? then None
    else
      match ParseMac(s.savedRows[sel.value])
      case None => None
      case Some(mac) => if mac in s.saved then Some(mac) else None
  }

  /** The reply at the saved address: HTTP 200 whose `mac` is exactly `mac` (no normalisation). */
  predicate Answers(reply: Reply, mac: Mac)
  {
    reply.Http? && reply.code == 200 && reply.body.mac == Some(mac)
  }

  /** `mac` at `ip` becomes the current dispenser, then `save_connections`. */
  function Adopt(s: ConnState, mac: Mac, ip: Ip): (r: ConnState)
    ensures r.currentDevice == Some(mac) && r.currentIp == Some(ip)
    ensures r.file == Some(StoredFile(Some(SavedDict(s.saved, s.savedOrder)),
                                     if mac != "" then Some(LastConnected(Some(mac), Some(ip))) else None))
    ensures r == s.(currentIp := r.currentIp, currentDevice := r.currentDevice, file := r.file)
  {
    SaveConnections(s.(currentIp := Some(ip), currentDevice := Some(mac)))
  }

  /**
   * After the fallback scan: the first discovered row that contains the MAC
   * gives the new address, which is stored and becomes current; with no such
   * row the current dispenser is cleared. A row without a token raises
   * IndexError and changes nothing.
   */
  function AdoptListed(s: ConnState, mac: Mac): (r: ConnState)
    requires mac in s.saved
    ensures FirstContaining(s.ipRows, mac).None? ==>
      r == SaveConnections(s.(currentIp := None, currentDevice := None))
    ensures FirstContaining(s.ipRows, mac).Some? && ParseIp(s.ipRows[FirstContaining(s.ipRows, mac).value]).Some? ==>
      var ip := ParseIp(s.ipRows[FirstContaining(s.ipRows, mac).value]).value;
      r == Adopt(s.(saved := s.saved[mac := s.saved[mac].(ip := ip)]), mac, ip)
    ensures r.saved.Keys == s.saved.Keys && r.savedOrder == s.savedOrder
    ensures forall m :: m in s.saved ==>
      r.saved[m].nickname == s.saved[m].nickname && (m != mac ==> r.saved[m] == s.saved[m])
  {
    match FirstContaining(s.ipRows, mac)
    case None => SaveConnections(s.(currentIp := None, currentDevice := None))
    case Some(i) =>
      match ParseIp(s.ipRows[i])
      case None => s
      case Some(ip) => Adopt(s.(saved := s.saved[mac := s.saved[mac].(ip := ip)]), mac, ip)
  }

  /**
   * `connect_to_device`: the selected saved dispenser becomes current when it
   * answers with its exact MAC at its saved address; otherwise a scan looks
   * for it (this scan does not run the post-scan reconnect, see ## Findings).
   */
  function ConnectToDevice(s: ConnState, sel: Option<nat>, env: Env): (r: ConnState)
    requires ValidEnv(env) && (sel.Some? ==> sel.value < |s.savedRows|)
    ensures SelectedMac(s, sel).None? ==> r == s
    ensures Valid(s) ==> Valid(r)
    ensures r == s.(saved := r.saved, currentIp := r.currentIp, currentDevice := r.currentDevice,
                    ipRows := r.ipRows, file := r.file)
    ensures r.saved.Keys == s.saved.Keys
    ensures forall m :: m in s.saved && Some(m) != SelectedMac(s, sel) ==> r.saved[m] == s.saved[m]
    ensures r.currentDevice == s.currentDevice || r.currentDevice.None? || r.currentDevice == SelectedMac(s, sel)
  {
    match SelectedMac(s, sel)
    case None => s
    case Some(mac) =>
      var ip := s.saved[mac].ip;
      if Answers(env.probe(ip), mac) then Adopt(s, mac, ip)
      else
        var (s1, f) := ScanCore(s, env);
        if !f.ok then s1
        else
          AdoptListedValid(s, s1, mac);
          AdoptListed(s1, mac)
  }

  /**
   * Whether `connect_to_device` on `sel` ends by an exception: a selected row
   * without the `(MAC: ` marker (IndexError), a fallback scan that meets a
   * `ready` reply without a MAC (KeyError), or a rescan row that holds the MAC
   * but no address token (IndexError). An exception leaves everything but the
   * discovered-devices list as it was.
   */
  function ConnectRaises(s: ConnState, sel: Option<nat>, env: Env): (r: bool)
    requires ValidEnv(env) && (sel.Some? ==> sel.value < |s.savedRows|)
    ensures r ==> sel.Some?
    ensures sel.Some? && ParseMac(s.savedRows[sel.value]).None? ==> r
    ensures r ==> ConnectToDevice(s, sel, env) == s.(ipRows := ConnectToDevice(s, sel, env).ipRows)
    ensures r && SelectedMac(s, sel).Some? ==>
      !Answers(env.probe(s.saved[SelectedMac(s, sel).value].ip), SelectedMac(s, sel).value)
  {
    if sel.None? then false
    else
      match ParseMac(s.savedRows[sel.value])
      case None => true
      case Some(mac) =>
        if mac !in s.saved || Answers(env.probe(s.saved[mac].ip), mac) then false
        else
          var (s1, f) := ScanCore(s, env);
          !f.ok || (var t := FirstContaining(s1.ipRows, mac); t.Some? && ParseIp(s1.ipRows[t.value]).None?)
  }

  /** The fallback after a rescan keeps the saved list consistent with the saved table. */
  lemma {:induction false} AdoptListedValid(s: ConnState, s1: ConnState, mac: Mac)
    requires s1 == s.(ipRows := s1.ipRows) && mac in s.saved
    ensures Valid(s) ==> Valid(AdoptListed(s1, mac))
  {
    if Valid(s) {
      var r := AdoptListed(s1, mac);
      SavedRowsKeepNames(s.saved, r.saved, s.savedOrder);
    }
  }

  /**
   * The three ways a connect to a saved dispenser ends: at its saved address
   * when that address answers with its exact MAC; else at the address of the
   * first row of the rescan that contains the MAC, stored as its new address;
   * else with no current dispenser and no `last_connected` in the file.
   */
  lemma {:induction false} ConnectOutcome(s: ConnState, i: nat, env: Env)
    requires ValidEnv(env) && i < |s.savedRows| && SelectedMac(s, Some(i)).Some?
    ensures var mac := SelectedMac(s, Some(i)).value;
      var ip := s.saved[mac].ip;
      var r := ConnectToDevice(s, Some(i), env);
      var scan := ScanCore(s, env);
      var t := FirstContaining(scan.0.ipRows, mac);
      (Answers(env.probe(ip), mac) ==>
         r.currentDevice == Some(mac) && r.currentIp == Some(ip) && r.saved == s.saved)
      && (!Answers(env.probe(ip), mac) && scan.1.ok && t.Some? && ParseIp(scan.0.ipRows[t.value]).Some? ==>
            r.currentDevice == Some(mac) && r.currentIp == ParseIp(scan.0.ipRows[t.value])
            && r.saved[mac].ip == r.currentIp.value && r.saved[mac].nickname == s.saved[mac].nickname
            && r.ipRows == scan.0.ipRows)
      && (!Answers(env.probe(ip), mac) && scan.1.ok && t.None? ==>
            r.currentDevice.None? && r.currentIp.None? && r.file.Some? && r.file.value.last.None?)
  {
  }

  /** `disconnect_device`: only with a current address; both fields are cleared and the file written. */
  function DisconnectDevice(s: ConnState): (r: ConnState)
    ensures !Truthy(s.currentIp) ==> r == s
    ensures Truthy(s.currentIp) ==>
      r.currentIp.None? && r.currentDevice.None?
      && r.file == Some(StoredFile(Some(SavedDict(s.saved, s.savedOrder)), None))
      && r == s.(currentIp := None, currentDevice := None, file := r.file)
  {
    if Truthy(s.currentIp) then SaveConnections(s.(currentIp := None, currentDevice := None)) else s
  }

  // ---------------------------------------------------------------------------
  // Liveness check (arduino_connector.py:355-384)

  /**
   * One run of `schedule_connection_check` with the reply to the GET of the
   * current address: a reply other than HTTP 200, or an error, records the
   * current dispenser as `last_connected`, clears it and writes the file.
   */
  function ConnectionCheck(s: ConnState, reply: Reply): (r: ConnState)
    ensures !(Truthy(s.currentIp) && Truthy(s.currentDevice)) ==> r == s
    ensures reply.Http? && reply.code == 200 ==> r == s
    ensures Truthy(s.currentIp) && Truthy(s.currentDevice) && !(reply.Http? && reply.code == 200) ==>
      r.lastConnected == Some(LastConnected(s.currentDevice, s.currentIp))
      && r.currentIp.None? && r.currentDevice.None?
      && r.file == Some(StoredFile(Some(SavedDict(s.saved, s.savedOrder)), None))
      && r == s.(lastConnected := r.lastConnected, currentIp := None, currentDevice := None, file := r.file)
  {
    if Truthy(s.currentIp) && Truthy(s.currentDevice) && !(reply.Http? && reply.code == 200) then
      SaveConnections(s.(lastConnected := Some(LastConnected(s.currentDevice, s.currentIp)),
                         currentIp := None, currentDevice := None))
    else s
  }

  /**
   * The `last_connected` a failed check records stays in memory only: the
   * file written in the same step has none, so a restart loads none.
   */
  lemma {:induction false} DemotionNotPersisted(s: ConnState, reply: Reply, t: ConnState)
    requires Valid(s) && Valid(t) && Truthy(s.currentIp) && Truthy(s.currentDevice)
    requires !(reply.Http? && reply.code == 200)
    ensures var r := ConnectionCheck(s, reply);
      r.lastConnected.Some? && r.lastConnected.value.mac == s.currentDevice
      && LoadConnections(t, r.file).lastConnected.None?
  {
  }

  // ---------------------------------------------------------------------------
  // Reconnecting to `last_connected` (arduino_connector.py:206-218, 386-399)

  /** The first saved row containing `last_connected`'s MAC, when that MAC is saved. */
  function LastRow(s: ConnState): (r: Option<nat>)
    ensures r.Some? ==>
      s.lastConnected.Some? && s.lastConnected.value.mac.Some? && s.lastConnected.value.mac.value in s.saved
      && r == FirstContaining(s.savedRows, s.lastConnected.value.mac.value)
  {
    if s.lastConnected.Some? && s.lastConnected.value.mac.Some? && s.lastConnected.value.mac.value in s.saved
    then FirstContaining(s.savedRows, s.lastConnected.value.mac.value)
    else None
  }

  /** A saved `last_connected` MAC always has a row to select. */
  lemma {:induction false} LastRowExists(s: ConnState)
    requires Valid(s) && s.lastConnected.Some? && s.lastConnected.value.mac.Some?
    requires s.lastConnected.value.mac.value in s.saved
    ensures LastRow(s).Some?
  {
    var mac := s.lastConnected.value.mac.value;
    var k :| 0 <= k < |s.savedOrder| && s.savedOrder[k] == mac;
    RowContainsMac(s.saved[mac].nickname, mac);
    assert Contains(s.savedRows[k], mac);
  }

  /** `restore_last_connection`: connect through the first saved row containing `last_connected`'s MAC. */
  function RestoreLastConnection(s: ConnState, env: Env): (r: ConnState)
    requires ValidEnv(env)
    ensures LastRow(s).None? ==> r == s
    ensures LastRow(s).Some? ==> r == ConnectToDevice(s, LastRow(s), env)
    ensures Valid(s) ==> Valid(r)
  {
    match LastRow(s)
    case None => s
    case Some(i) => ConnectToDevice(s, Some(i), env)
  }

  /** The row the post-scan reconnect selects: only with no current dispenser and `last_connected`'s MAC found. */
  function TailRow(s: ConnState, found: map<Mac, Ip>): (r: Option<nat>)
    ensures r.Some? ==> s.currentDevice.None? && LastRow(s) == r && s.lastConnected.value.mac.value in found
  {
    if s.currentDevice.None? && s.lastConnected.Some? && s.lastConnected.value.mac.Some?
       && s.lastConnected.value.mac.value in found
    then LastRow(s)
    else None
  }

  /** `scan_network`: the scan, then the post-scan reconnect. */
  function ScanNetwork(s: ConnState, env: Env): (r: ConnState)
    requires ValidEnv(env)
    ensures Valid(s) ==> Valid(r)
    ensures var (s1, f) := ScanCore(s, env);
      (!Truthy(s.networkPrefix) || !f.ok || TailRow(s1, f.devices).None? ==> r == s1)
      && (Truthy(s.networkPrefix) && f.ok && TailRow(s1, f.devices).Some? ==>
            r == ConnectToDevice(s1, TailRow(s1, f.devices), env))
  {
    var (s1, f) := ScanCore(s, env);
    if !Truthy(s.networkPrefix) || !f.ok then s1
    else
      match TailRow(s1, f.devices)
      case None => s1
      case Some(i) => ConnectToDevice(s1, Some(i), env)
  }

  /**
   * Whether `scan_network` ends by an exception: a `ready` reply without a MAC
   * in the scan itself, or an exception in the reconnect after it. Such a scan
   * changes nothing but the discovered-devices list.
   */
  function ScanRaises(s: ConnState, env: Env): (r: bool)
    requires ValidEnv(env)
    ensures r ==> Truthy(s.networkPrefix)
    ensures Truthy(s.networkPrefix) && !ScanCore(s, env).1.ok ==> r
    ensures r ==> ScanNetwork(s, env) == s.(ipRows := ScanNetwork(s, env).ipRows)
  {
    var (s1, f) := ScanCore(s, env);
    Truthy(s.networkPrefix)
    && (!f.ok || (TailRow(s1, f.devices).Some? && ConnectRaises(s1, TailRow(s1, f.devices), env)))
  }

  /**
   * The scan changes the current dispenser, the saved table or the file only
   * when there was no current dispenser and `last_connected`'s MAC is saved
   * and among the MACs found.
   */
  lemma {:induction false} ScanReconnectGate(s: ConnState, env: Env)
    requires ValidEnv(env)
    ensures var r := ScanNetwork(s, env); var f := ScanCore(s, env).1;
      r != s.(ipRows := r.ipRows) ==>
        Truthy(s.networkPrefix) && f.ok && s.currentDevice.None? && s.lastConnected.Some?
        && s.lastConnected.value.mac.Some? && s.lastConnected.value.mac.value in s.saved
        && s.lastConnected.value.mac.value in f.devices
  {
  }

  /**
   * A hand disconnect does not stick: `last_connected` stays in memory, so
   * the next scan that finds the dispenser, answering at its saved address,
   * makes it current again.
   */
  lemma {:induction false} ScanUndoesDisconnect(s: ConnState, env: Env, mac: Mac)
    requires Valid(s) && ValidEnv(env) && Truthy(s.currentIp) && Truthy(s.networkPrefix)
    requires s.lastConnected.Some? && s.lastConnected.value.mac == Some(mac) && mac in s.saved
    requires ScanCore(s, env).1.ok && mac in ScanCore(s, env).1.devices
    requires SelectedMac(s, FirstContaining(s.savedRows, mac)) == Some(mac)
    requires Answers(env.probe(s.saved[mac].ip), mac)
    ensures DisconnectDevice(s).currentDevice.None?
    ensures ScanNetwork(DisconnectDevice(s), env).currentDevice == Some(mac)
  {
    var d := DisconnectDevice(s);
    LastRowExists(d);
    var s1 := ScanCore(d, env).0;
    assert s1.savedRows == s.savedRows && s1.saved == s.saved;
  }

  // ---------------------------------------------------------------------------
  // The fallback scan as written (arduino_connector.py:206-218, 313-314)

  /** How a call ends: normally, by an exception (with the state it reached), or not within the nesting bound. */
  datatype Run = Finished(st: ConnState) | Raised(st: ConnState) | Unbounded

  /**
   * `scan_network` as written: its post-scan reconnect calls
   * `connect_to_device`, whose fallback calls `scan_network` again. `fuel`
   * bounds the nesting; `Unbounded` means it was exceeded.
   */
  function ScanAsWritten(s: ConnState, env: Env, fuel: nat): (r: Run)
    requires ValidEnv(env)
    ensures r.Unbounded? || s.saved.Keys <= r.st.saved.Keys
    decreases fuel, 0
  {
    var (s1, f) := ScanCore(s, env);
    if !Truthy(s.networkPrefix) then Finished(s1)
    else if !f.ok then Raised(s1)
    else
      match TailRow(s1, f.devices)
      case None => Finished(s1)
      case Some(i) => if fuel == 0 then Unbounded else ConnectAsWritten(s1, i, env, fuel - 1)
  }

  /** `connect_to_device` on saved row `i` as written, with `ScanAsWritten` as its fallback. */
  function ConnectAsWritten(s: ConnState, i: nat, env: Env, fuel: nat): (r: Run)
    requires ValidEnv(env) && i < |s.savedRows|
    ensures r.Unbounded? || s.saved.Keys <= r.st.saved.Keys
    decreases fuel, 1
  {
    match ParseMac(s.savedRows[i])
    case None => Raised(s)
    case Some(mac) =>
      if mac !in s.saved then Finished(s)
      else
        var ip := s.saved[mac].ip;
        if Answers(env.probe(ip), mac) then Finished(Adopt(s, mac, ip))
        else
          match ScanAsWritten(s, env, fuel)
          case Unbounded => Unbounded
          case Raised(s2) => Raised(s2)
          case Finished(s2) =>
            var t := FirstContaining(s2.ipRows, mac);
            if t.Some? && ParseIp(s2.ipRows[t.value]).None? then Raised(s2) else Finished(AdoptListed(s2, mac))
  }

  /**
   * No current dispenser; `last_connected` names a saved dispenser, the first
   * saved row containing its MAC is its own, the scan finds it, and its saved
   * address does not answer with its MAC (it moved).
   */
  predicate StaleAddress(s: ConnState, env: Env, mac: Mac)
  {
    ValidEnv(env) && s.currentDevice.None? && s.lastConnected.Some? && s.lastConnected.value.mac == Some(mac)
    && mac in s.saved && Truthy(s.networkPrefix)
    && FoundFold(Results(s.networkPrefix.value, env)).ok
    && mac in FoundFold(Results(s.networkPrefix.value, env)).devices
    && !Answers(env.probe(s.saved[mac].ip), mac)
    && FirstContaining(s.savedRows, mac).Some?
    && ParseMac(s.savedRows[FirstContaining(s.savedRows, mac).value]) == Some(mac)
  }

  /**
   * As written, a scan in that situation never finishes: each fallback scan
   * finds the dispenser again and reconnects before the address is updated,
   * for every nesting bound.
   */
  lemma {:induction false} ScanAsWrittenUnbounded(s: ConnState, env: Env, mac: Mac, fuel: nat)
    requires StaleAddress(s, env, mac)
    ensures ScanAsWritten(s, env, fuel) == Unbounded
  {
    var s1 := ScanCore(s, env).0;
    StaleScanAgain(s, env, mac);
    StaleScanStep(s1, env, mac, 0);
    var k := 0;
    while k + 1 < fuel
      invariant k < fuel || k == 0
      invariant ScanAsWritten(s1, env, k) == Unbounded
    {
      StaleScanStep(s1, env, mac, k + 1);
      k := k + 1;
    }
    assert fuel == 0 || k == fuel - 1;
    StaleScanStep(s, env, mac, fuel);
  }

  /** The scan leaves the situation as it was, and scanning once more changes nothing. */
  lemma {:induction false} StaleScanAgain(s: ConnState, env: Env, mac: Mac)
    requires StaleAddress(s, env, mac)
    ensures StaleAddress(ScanCore(s, env).0, env, mac)
    ensures ScanCore(ScanCore(s, env).0, env).0 == ScanCore(s, env).0
  {
    var s1 := ScanCore(s, env).0;
    assert s1 == s.(ipRows := s1.ipRows);
  }

  /** In that situation a scan without nesting left is unbounded, and one with nesting left nests a scan. */
  lemma {:induction false} StaleScanStep(s: ConnState, env: Env, mac: Mac, fuel: nat)
    requires StaleAddress(s, env, mac)
    ensures fuel == 0 ==> ScanAsWritten(s, env, fuel) == Unbounded
    ensures fuel > 0 && ScanAsWritten(ScanCore(s, env).0, env, fuel - 1) == Unbounded ==>
      ScanAsWritten(s, env, fuel) == Unbounded
  {
    var s1 := ScanCore(s, env).0;
    StaleScanAgain(s, env, mac);
  }

  /**
   * With a fallback scan that does not reconnect, the same situation ends
   * with the dispenser current at an address the scan listed for it, stored
   * as its address and written to the file.
   */
  lemma {:induction false} ScanAdoptsMovedDevice(s: ConnState, env: Env, mac: Mac)
    requires StaleAddress(s, env, mac) && mac != ""
    ensures var r := ScanNetwork(s, env);
      r.currentDevice == Some(mac) && r.currentIp.Some? && mac in r.saved && r.saved[mac].ip == r.currentIp.value
      && r.file.Some? && r.file.value.last == Some(LastConnected(Some(mac), r.currentIp))
  {
    var s1 := ScanCore(s, env).0;
    ScanConnectsStale(s, env, mac);
    MovedRowFound(s, env, mac);
    var t := FirstContaining(s1.ipRows, mac).value;
    var ip := ParseIp(s1.ipRows[t]).value;
    var s2 := s1.(saved := s1.saved[mac := s1.saved[mac].(ip := ip)]);
    assert ScanNetwork(s, env) == Adopt(s2, mac, ip);
  }

  /** In that situation the post-scan reconnect falls back to the discovered rows. */
  lemma {:induction false} ScanConnectsStale(s: ConnState, env: Env, mac: Mac)
    requires StaleAddress(s, env, mac)
    ensures mac in ScanCore(s, env).0.saved
    ensures ScanNetwork(s, env) == AdoptListed(ScanCore(s, env).0, mac)
  {
    var (s1, f) := ScanCore(s, env);
    StaleScanAgain(s, env, mac);
    var i := FirstContaining(s.savedRows, mac);
    assert TailRow(s1, f.devices) == i;
    assert SelectedMac(s1, i) == Some(mac);
    assert ScanNetwork(s, env) == ConnectToDevice(s1, i, env);
  }

  /** In that situation the scan writes a row containing the MAC, and the first such row starts with an address. */
  lemma {:induction false} MovedRowFound(s: ConnState, env: Env, mac: Mac)
    requires StaleAddress(s, env, mac)
    ensures var rows := ScanCore(s, env).0.ipRows;
      FirstContaining(rows, mac).Some? && ParseIp(rows[FirstContaining(rows, mac).value]).Some?
  {
    var results := Results(s.networkPrefix.value, env);
    var f := FoundFold(results);
    assert ScanCore(s, env).0.ipRows == f.rows;
    FoundDevice(results, mac);
    FoundRows(results);
    var j :| 0 <= j < |results| && Reports(results[j], mac);
    RowContainsMac(results[j].0, mac);
    assert Contains(RowFor(results[j]), mac);
    var t := FirstContaining(f.rows, mac);
    assert t.Some?;
    var j2 :| 0 <= j2 < |results| && Listed(results[j2]) && f.rows[t.value] == RowFor(results[j2]);
    RowContainsMac(results[j2].0, results[j2].1.value.mac.value);
    assert ParseIp(f.rows[t.value]).Some?;
  }
}
