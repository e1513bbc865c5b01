/**
 * `ArduinoConnector` as an object whose methods update its fields in place,
 * each proved to leave the state the `Connector` function of the same name
 * describes. The widgets are left out; the two listboxes are kept as the
 * sequences of their row texts.
 */
module ConnectorApp {
  import opened Wrappers
  import opened Text
  import opened Ordered
  import opened Devices
  import opened Connector

  class ArduinoConnector {
    var saved: map<Mac, Entry>
    var savedOrder: seq<Mac>
    var currentIp: Option<Ip>
    var currentDevice: Option<Mac>
    var networkPrefix: Option<string>
    var networks: seq<string>
    var lastConnected: Option<LastConnected>
    var ipRows: seq<string>
    var savedRows: seq<string>
    var file: Option<StoredFile>

    function State(): ConnState
      reads this
    {
      ConnState(saved, savedOrder, currentIp, currentDevice, networkPrefix, networks, lastConnected,
                ipRows, savedRows, file)
    }

    constructor()
      ensures State() == Initial()
    {
      saved, savedOrder := map[], [];
      currentIp, currentDevice := None, None;
      networkPrefix, networks := None, [];
      lastConnected := None;
      ipRows, savedRows := [], [];
      file := None;
    }

    // -------------------------------------------------------------------------
    // Persistence

    /** `save_connections`. */
    method SaveConnections()
      modifies this
      ensures State() == Connector.SaveConnections(old(State()))
    {
      var last := if Truthy(currentDevice) then Some(LastConnected(currentDevice, currentIp)) else None;
      file := Some(StoredFile(Some(SavedDict(saved, savedOrder)), last));
    }

    /** `update_saved_list`: one row per saved dispenser, in insertion order. */
    method UpdateSavedList()
      requires Enumerates(savedOrder, saved.Keys)
      modifies this
      ensures State() == old(State()).(savedRows := SavedRows(old(saved), old(savedOrder)))
      ensures Valid(State())
    {
      var rows := [];
      for i := 0 to |savedOrder|
        invariant rows == SavedRows(saved, savedOrder[..i])
      {
        var mac := savedOrder[i];
        rows := rows + [SavedRow(saved[mac].nickname, mac)];
      }
      assert savedOrder[..|savedOrder|] == savedOrder;
      savedRows := rows;
    }

    /** `load_connections`; `None` is a missing file. */
    method LoadConnections(stored: Option<StoredFile>)
      requires stored.Some? && stored.value.connections.Some? ==> ValidDict(stored.value.connections.value)
      requires Valid(State())
      modifies this
      ensures State() == Connector.LoadConnections(old(State()), stored)
    {
      if stored.None? {
        lastConnected := None;
        return;
      }
      var d := stored.value.connections.GetOr(SavedDict(map[], []));
      saved, savedOrder := d.entries, d.order;
      lastConnected := stored.value.last;
      UpdateSavedList();
    }

    // -------------------------------------------------------------------------
    // Network prefix

    /**
     * `detect_networks`; `None` is an exception from `gethostname` or
     * `getaddrinfo`. With a network it scans; `dialog` says that the manual
     * dialog opens: without a network, or because the scan raised inside the
     * same `try`.
     */
    method DetectNetworks(addrs: Option<seq<SockAddr>>, env: Env) returns (dialog: bool)
      requires ValidEnv(env)
      modifies this
      ensures var (t, scan) := Connector.DetectNetworks(old(State()), addrs);
        dialog == (!scan || ScanRaises(t, env))
        && State() == (if scan then Connector.ScanNetwork(t, env) else t)
    {
      if addrs.None? {
        return true;
      }
      var nets := CollectNetworks(addrs.value);
      networks := nets;
      if |nets| > 0 {
        networkPrefix := Some(nets[0]);
        dialog := ScanNetwork(env);
        return;
      }
      return true;
    }

    /** The loop of `detect_networks` over the interface addresses. */
    static method CollectNetworks(a: seq<SockAddr>) returns (nets: seq<string>)
      ensures nets == Networks(a)
    {
      nets := [];
      for i := 0 to |a|
        invariant nets == Networks(a[..i])
      {
        assert a[..i + 1][..i] == a[..i];
        if Qualifies(a[i]) {
          var network := NetworkOf(a[i].host);
          if network !in nets {
            nets := nets + [network];
          }
        }
      }
      assert a[..|a|] == a;
    }

    /** `on_ok` of the manual dialog: an accepted prefix is added and scanned. */
    method OnOk(input: string, env: Env) returns (accepted: bool)
      requires ValidEnv(env)
      modifies this
      ensures var (t, scan) := Connector.OnOk(old(State()), input);
        accepted == scan && State() == (if scan then Connector.ScanNetwork(t, env) else t)
    {
      var prefix := Trim(input);
      if prefix == "" || !EndsWith(prefix, ".") {
        return false;
      }
      networkPrefix := Some(prefix);
      if prefix !in networks {
        networks := networks + [prefix];
      }
      var _ := ScanNetwork(env);
      return true;
    }

    /** `on_network_changed`: the chosen network becomes the prefix and is scanned. */
    method OnNetworkChanged(choice: string, env: Env)
      requires ValidEnv(env)
      modifies this
      ensures State() == Connector.ScanNetwork(old(State()).(networkPrefix := Some(choice)), env)
    {
      networkPrefix := Some(choice);
      var _ := ScanNetwork(env);
    }

    // -------------------------------------------------------------------------
    // The scan

    /** The first row containing `x`: the `for i in range(listbox.size())` searches. */
    static method FindRow(rows: seq<string>, x: string) returns (r: Option<nat>)
      ensures r == FirstContaining(rows, x)
    {
      var i := 0;
      while i < |rows|
        invariant 0 <= i <= |rows|
        invariant forall t :: 0 <= t < i ==> !Contains(rows[t], x)
      {
        if Contains(rows[i], x) {
          return Some(i);
        }
        i := i + 1;
      }
      return None;
    }

    /**
     * `scan_network` up to the post-scan reconnect: the discovered-devices
     * list is refilled row by row from `results` in enumeration order.
     */
    method ScanCore(env: Env) returns (found: Found)
      requires ValidEnv(env)
      modifies this
      ensures State() == Connector.ScanCore(old(State()), env).0
      ensures found == Connector.ScanCore(old(State()), env).1
    {
      if !Truthy(networkPrefix) {
        return Found(map[], [], true);
      }
      ipRows := [];
      var results := Results(networkPrefix.value, env);
      var devices: map<Mac, Ip> := map[];
      var i := 0;
      while i < |results|
        invariant 0 <= i <= |results|
        invariant FoundFold(results[..i]) == Found(devices, ipRows, true)
        invariant State() == old(State()).(ipRows := ipRows)
      {
        assert results[..i + 1][..i] == results[..i];
        var (ip, data) := results[i];
        if data.Some? {
          if data.value.mac.None? {
            FoundFoldStops(results, i + 1);
            return Found(devices, ipRows, false);
          }
          var mac := data.value.mac.value;
          devices := devices[mac := ip];
          ipRows := ipRows + [IpRow(ip, mac)];
        }
        i := i + 1;
      }
      assert results[..i] == results;
      return Found(devices, ipRows, true);
    }

    /**
     * `scan_network`: the scan, then the post-scan reconnect. Also each run of
     * `schedule_scan`. `raised` says that it ended by an exception.
     */
    method ScanNetwork(env: Env) returns (raised: bool)
      requires ValidEnv(env)
      modifies this
      ensures State() == Connector.ScanNetwork(old(State()), env)
      ensures raised == ScanRaises(old(State()), env)
    {
      var found := ScanCore(env);
      if !Truthy(networkPrefix) {
        return false;
      }
      if !found.ok {
        return true;
      }
      raised := false;
      if currentDevice.None? && lastConnected.Some? && lastConnected.value.mac.Some?
         && lastConnected.value.mac.value in found.devices {
        var mac := lastConnected.value.mac.value;
        if mac in saved {
          var i := FindRow(savedRows, mac);
          if i.Some? {
            raised := ConnectToDevice(i, env);
          }
        }
      }
    }

    // -------------------------------------------------------------------------
    // Saving, connecting, disconnecting

    /** `save_connection`: store the selected discovered row under the nickname. */
    method SaveConnection(sel: Option<nat>, nicknameInput: string)
      requires Valid(State()) && (sel.Some? ==> sel.value < |ipRows|)
      modifies this
      ensures State() == Connector.SaveConnection(old(State()), sel, nicknameInput)
    {
      if sel.None? {
        return;
      }
      var nickname := Trim(nicknameInput);
      if nickname == "" || nickname == Placeholder {
        return;
      }
      var row := ipRows[sel.value];
      var ip := ParseIp(row);
      var mac := ParseMac(row);
      if ip.None? || mac.None? {
        return;
      }
      ghost var s0 := State();
      assert SaveAccepted(s0, sel, nicknameInput);
      saved := saved[mac.value := Entry(ip.value, nickname)];
      savedOrder := Put(savedOrder, mac.value);
      SaveConnections();
      ghost var s1 := Connector.SaveConnections(s0.(saved := saved, savedOrder := savedOrder));
      assert State() == s1;
      UpdateSavedList();
      assert State() == s1.(savedRows := SavedRows(saved, savedOrder));
    }

    /**
     * `connect_to_device` on the selected saved row, with the fallback scan;
     * `raised` says that it ended by an exception.
     */
    method ConnectToDevice(sel: Option<nat>, env: Env) returns (raised: bool)
      requires ValidEnv(env) && (sel.Some? ==> sel.value < |savedRows|)
      modifies this
      ensures State() == Connector.ConnectToDevice(old(State()), sel, env)
      ensures raised == ConnectRaises(old(State()), sel, env)
    {
      if sel.None? {
        return false;
      }
      var parsed := ParseMac(savedRows[sel.value]);
      if parsed.None? {
        return true;
      }
      if parsed.value !in saved {
        return false;
      }
      var mac := parsed.value;
      var ip := saved[mac].ip;
      if Answers(env.probe(ip), mac) {
        currentIp, currentDevice := Some(ip), Some(mac);
        SaveConnections();
        return false;
      }
      var found := ScanCore(env);
      if !found.ok {
        return true;
      }
      var t := FindRow(ipRows, mac);
      if t.None? {
        currentIp, currentDevice := None, None;
        SaveConnections();
        return false;
      }
      var newIp := ParseIp(ipRows[t.value]);
      if newIp.None? {
        return true;
      }
      raised := false;
      saved := saved[mac := saved[mac].(ip := newIp.value)];
      currentIp, currentDevice := newIp, Some(mac);
      SaveConnections();
    }

    /** `disconnect_device`. */
    method DisconnectDevice()
      modifies this
      ensures State() == Connector.DisconnectDevice(old(State()))
    {
      if Truthy(currentIp) {
        currentIp, currentDevice := None, None;
        SaveConnections();
      }
    }

    /** One run of `schedule_connection_check` with the reply to the GET of the current address. */
    method ConnectionCheck(reply: Reply)
      modifies this
      ensures State() == Connector.ConnectionCheck(old(State()), reply)
    {
      if Truthy(currentIp) && Truthy(currentDevice) && !(reply.Http? && reply.code == 200) {
        lastConnected := Some(LastConnected(currentDevice, currentIp));
        currentIp, currentDevice := None, None;
        SaveConnections();
      }
    }

    /** `restore_last_connection`. */
    method RestoreLastConnection(env: Env)
      requires ValidEnv(env)
      modifies this
      ensures State() == Connector.RestoreLastConnection(old(State()), env)
    {
      if lastConnected.Some? && lastConnected.value.mac.Some? && lastConnected.value.mac.value in saved {
        var i := FindRow(savedRows, lastConnected.value.mac.value);
        if i.Some? {
          var _ := ConnectToDevice(i, env);
        }
      }
    }
  }
}
