/**
 * The renderer's view of the dispenser fleet: the saved dispensers, the
 * connected ones, the auto-reconnect counters, the dispensers the user
 * disconnected by hand, and the flags that pause the health check while
 * syrup is being dispensed (renderer.js:10-33). This module holds the state
 * as a value and the registry operations on it; `RendererApp` updates the
 * same state in place.
 */
module Fleet {
  import opened Wrappers
  import opened Text
  import opened Ordered
  import opened Devices
  import opened Transmission
  import opened Pm3000

  /** `savedConnections[mac]`; files written by older versions may lack `pill_code`. */
  datatype SavedDevice = SavedDevice(ip: Ip, nickname: string, pillCode: Option<string>)

  /** The status shown for a connected dispenser. */
  datatype DeviceStatus = Connected | Dispensing | Disconnected | Unresponsive
  {
    function Label(): string
    {
      match this
      case Connected => "연결됨"
      case Dispensing => "시럽 조제 중"
      case Disconnected => "연결 끊김"
      case Unresponsive => "일시적 응답 없음"
    }
  }

  /** `connectedDevices[mac]`. */
  datatype ConnectedDevice = ConnectedDevice(ip: Ip, nickname: string, pillCode: string, status: DeviceStatus)

  /** A data row of the network table: its address, MAC and status cells. */
  datatype NetRow = NetRow(ip: Ip, mac: Mac, status: string)

  /** The saved dispensers with their keys in insertion order, as `JSON.stringify` writes them. */
  datatype SavedTable = SavedTable(devices: map<Mac, SavedDevice>, order: seq<Mac>)

  /** `connections.json`: either field may be missing from a file written elsewhere. */
  datatype StoredConnections = StoredConnections(connections: Option<SavedTable>, manual: Option<set<Mac>>)

  const FastIntervalMs: int := 5000
  const NormalIntervalMs: int := 15000
  const SlowIntervalMs: int := 60000
  const MaxReconnectAttempts: nat := 3
  const DefaultMaxSyrupAmount: int := 100

  datatype FleetState = FleetState(
    saved: map<Mac, SavedDevice>, savedOrder: seq<Mac>,
    connected: map<Mac, ConnectedDevice>, connectedOrder: seq<Mac>,
    attempts: map<string, nat>,      // autoReconnectAttempted, keyed by normalised MAC
    manual: set<Mac>,                // manuallyDisconnectedDevices
    dispensingIps: set<Ip>,          // dispensingDevices
    inProgress: bool,                // isDispensingInProgress
    autoInProgress: bool,            // isAutoDispensingInProgress
    checking: bool,                  // isCheckingStatus
    intervalMs: int,                 // connectionCheckIntervalMs
    delayArmed: bool,                // connectionCheckDelayTimer is pending
    networkPrefix: Option<string>,
    networks: seq<string>,           // availableNetworks
    netRows: seq<NetRow>,            // the rows of the network table that are not empty
    stored: Option<StoredConnections>,
    prescriptions: map<string, Prescription>,
    maxSyrup: int,                   // maxSyrupAmount
    ledger: LedgerState)

  /** The key orders list exactly the keys of their maps. */
  predicate Valid(s: FleetState)
  {
    Enumerates(s.savedOrder, s.saved.Keys) && Enumerates(s.connectedOrder, s.connected.Keys)
  }

  /** The state when the renderer starts, before anything is loaded. */
  function Initial(): (s: FleetState)
    ensures Valid(s) && s.intervalMs == NormalIntervalMs && s.maxSyrup == DefaultMaxSyrupAmount
  {
    FleetState(map[], [], map[], [], map[], {}, {}, false, false, false, NormalIntervalMs, false,
               None, [], [], None, map[], DefaultMaxSyrupAmount, LedgerState(map[], map[]))
  }

  // ---------------------------------------------------------------------------
  // Registered pill codes (renderer.js:3428-3430)

  /** `isMedicineRegistered`: some saved dispenser carries the pill code. */
  predicate IsRegistered(s: FleetState, code: string)
  {
    exists m :: m in s.saved && s.saved[m].pillCode == Some(code)
  }

  function RegisteredCodes(s: FleetState): (r: set<string>)
    ensures forall c :: c in r <==> IsRegistered(s, c)
  {
    set m | m in s.saved && s.saved[m].pillCode.Some? :: s.saved[m].pillCode.value
  }

  // ---------------------------------------------------------------------------
  // Saving, deleting and disconnecting (renderer.js:1118-1153, 1214-1298)

  /** `saveConnections`: write the saved table and the hand-disconnected set. */
  function Persist(s: FleetState): (r: FleetState)
    ensures r == s.(stored := Some(StoredConnections(Some(SavedTable(s.saved, s.savedOrder)), Some(s.manual))))
  {
    s.(stored := Some(StoredConnections(Some(SavedTable(s.saved, s.savedOrder)), Some(s.manual))))
  }

  /**
   * `saveConnection(mac, ip)`: `nicknameInput` and `pillCodeInput` are the two
   * input fields (`None` when the row has none); both must be non-blank once trimmed.
   */
  function SaveConnection(s: FleetState, mac: Mac, ip: Ip, nicknameInput: Option<string>,
                          pillCodeInput: Option<string>): (r: FleetState)
    ensures Valid(s) ==> Valid(r)
    ensures nicknameInput.None? || pillCodeInput.None? ==> r == s
    ensures nicknameInput.Some? && AllWhite(nicknameInput.value) ==> r == s
    ensures pillCodeInput.Some? && AllWhite(pillCodeInput.value) ==> r == s
    ensures r != s ==>
      nicknameInput.Some? && pillCodeInput.Some?
      && r.saved == s.saved[mac := SavedDevice(ip, Trim(nicknameInput.value), Some(Trim(pillCodeInput.value)))]
      && Trim(nicknameInput.value) != "" && Trim(pillCodeInput.value) != ""
      && r.savedOrder == Put(s.savedOrder, mac)
      && r.stored == Some(StoredConnections(Some(SavedTable(r.saved, r.savedOrder)), Some(s.manual)))
      && r == s.(saved := r.saved, savedOrder := r.savedOrder, stored := r.stored)
  {
    if nicknameInput.None? || pillCodeInput.None? then s
    else
      var nickname := Trim(nicknameInput.value);
      var pillCode := Trim(pillCodeInput.value);
      if nickname == "" || pillCode == "" then s
      else Persist(s.(saved := s.saved[mac := SavedDevice(ip, nickname, Some(pillCode))],
                      savedOrder := Put(s.savedOrder, mac)))
  }

  /** A saved pill code is registered from then on. */
  lemma {:induction false} SaveRegisters(s: FleetState, mac: Mac, ip: Ip, nickname: string, pillCode: string)
    requires !AllWhite(nickname) && !AllWhite(pillCode)
    ensures IsRegistered(SaveConnection(s, mac, ip, Some(nickname), Some(pillCode)), Trim(pillCode))
  {
    var r := SaveConnection(s, mac, ip, Some(nickname), Some(pillCode));
    assert r.saved[mac].pillCode == Some(Trim(pillCode));
  }

  /**
   * `disconnectDevice`: the selected dispenser leaves the connected set and
   * is remembered as disconnected by hand; nothing is written to the file.
   */
  function DisconnectDevice(s: FleetState, selection: Option<Mac>): (r: FleetState)
    ensures Valid(s) ==> Valid(r)
    ensures r.manual >= s.manual
    ensures selection.None? || selection.value !in s.connected ==> r == s
    ensures selection.Some? && selection.value in s.connected ==>
      r == s.(connected := s.connected - {selection.value},
              connectedOrder := Drop(s.connectedOrder, selection.value),
              manual := s.manual + {selection.value})
  {
    if selection.None? then s
    else
      var mac := selection.value;
      if mac !in s.connected then s
      else s.(connected := s.connected - {mac}, connectedOrder := Drop(s.connectedOrder, mac),
              manual := s.manual + {mac})
  }

  /** `deleteDevice`: a connected dispenser cannot be deleted; otherwise forget it and save. */
  function DeleteDevice(s: FleetState, selection: Option<Mac>): (r: FleetState)
    ensures Valid(s) ==> Valid(r)
    ensures r.manual == s.manual && r.connected == s.connected
    ensures selection.None? || selection.value in s.connected ==> r == s
    ensures selection.Some? && selection.value !in s.connected ==>
      selection.value !in r.saved
      && (forall m :: m in s.saved && m != selection.value ==> m in r.saved && r.saved[m] == s.saved[m])
      && r.stored == Some(StoredConnections(Some(SavedTable(r.saved, r.savedOrder)), Some(s.manual)))
  {
    if selection.None? then s
    else
      var mac := selection.value;
      if mac in s.connected then s
      else Persist(s.(saved := s.saved - {mac}, savedOrder := Drop(s.savedOrder, mac)))
  }

  /** `loadConnections`: `None` when there is no file; a missing hand-disconnected list keeps the current one. */
  function LoadConnections(s: FleetState, file: Option<StoredConnections>): (r: FleetState)
    ensures file.None? ==> r == s
    ensures file.Some? ==>
      r == s.(saved := if file.value.connections.Some? then file.value.connections.value.devices else map[],
              savedOrder := if file.value.connections.Some? then file.value.connections.value.order else [],
              manual := if file.value.manual.Some? then file.value.manual.value else s.manual)
  {
    if file.None? then s
    else
      var saved := if file.value.connections.Some? then file.value.connections.value else SavedTable(map[], []);
      s.(saved := saved.devices, savedOrder := saved.order,
         manual := if file.value.manual.Some? then file.value.manual.value else s.manual)
  }

  /** Loading what was last saved restores the saved dispensers and the hand-disconnected set. */
  lemma {:induction false} SaveLoadRoundTrip(s: FleetState, t: FleetState)
    requires s.stored.Some? && s.stored == Persist(s).stored
    ensures LoadConnections(t, s.stored).saved == s.saved
    ensures LoadConnections(t, s.stored).savedOrder == s.savedOrder
    ensures LoadConnections(t, s.stored).manual == s.manual
  {
  }

  /** Once disconnected by hand, a dispenser stays so through save, connect, delete and reconnect. */
  lemma {:induction false} ManualOnlyGrows(s: FleetState, mac: Mac, ip: Ip, n: Option<string>, c: Option<string>,
                        sel: Option<Mac>, probe: Ip -> Reply)
    ensures SaveConnection(s, mac, ip, n, c).manual == s.manual
    ensures DisconnectDevice(s, sel).manual >= s.manual
    ensures DeleteDevice(s, sel).manual == s.manual
    ensures ConnectByMac(s, mac, probe).0.manual == s.manual
  {
  }

  // ---------------------------------------------------------------------------
  // Connecting (renderer.js:864-943, 1168-1187)

  /** A reply that proves the dispenser at the probed address is `mac`. */
  predicate MacMatches(reply: Reply, mac: Mac)
  {
    reply.Http? && reply.code == 200 && HasMac(reply.body)
    && NormalizeMac(reply.body.mac.value) == NormalizeMac(mac)
  }

  /**
   * `connectToDeviceByMac(mac)`: probe the saved address (`probe` gives the
   * reply); connect only a saved dispenser whose reply carries the same MAC.
   */
  function ConnectByMac(s: FleetState, mac: Mac, probe: Ip -> Reply): (r: (FleetState, bool))
    ensures Valid(s) ==> Valid(r.0)
    ensures r.1 <==> mac in s.saved && MacMatches(probe(s.saved[mac].ip), mac)
    ensures !r.1 ==> r.0 == s
    ensures r.1 ==>
      r.0 == s.(connected := s.connected[mac := ConnectedDevice(s.saved[mac].ip, s.saved[mac].nickname,
                                                                 s.saved[mac].pillCode.GetOr(""), Connected)],
                connectedOrder := Put(s.connectedOrder, mac))
  {
    if mac !in s.saved then (s, false)
    else
      var dev := s.saved[mac];
      if MacMatches(probe(dev.ip), mac) then
        (s.(connected := s.connected[mac := ConnectedDevice(dev.ip, dev.nickname, dev.pillCode.GetOr(""), Connected)],
            connectedOrder := Put(s.connectedOrder, mac)), true)
      else (s, false)
  }

  /**
   * `connectToDevice`, the Connect button, as the source writes it: on success
   * it clears the reconnect counter stored under the raw MAC, although the
   * counters are keyed by the normalised MAC.
   */
  function ConnectToDeviceAsWritten(s: FleetState, selection: Option<Mac>, probe: Ip -> Reply): (r: FleetState)
    ensures selection.None? || selection.value in s.connected ==> r == s
    ensures selection.Some? && selection.value !in s.connected ==>
      var (t, ok) := ConnectByMac(s, selection.value, probe);
      r == if ok then t.(attempts := t.attempts - {selection.value}) else t
  {
    if selection.None? || selection.value in s.connected then s
    else
      var (t, ok) := ConnectByMac(s, selection.value, probe);
      if ok then t.(attempts := t.attempts - {selection.value}) else t
  }

  /** `connectToDevice` with the counter cleared under the key the counters use. */
  function ConnectToDevice(s: FleetState, selection: Option<Mac>, probe: Ip -> Reply): (r: FleetState)
    ensures Valid(s) ==> Valid(r)
    ensures selection.None? || selection.value in s.connected ==> r == s
    ensures selection.Some? && selection.value !in s.connected ==>
      var (t, ok) := ConnectByMac(s, selection.value, probe);
      r == if ok then t.(attempts := t.attempts - {NormalizeMac(selection.value)}) else t
  {
    if selection.None? || selection.value in s.connected then s
    else
      var (t, ok) := ConnectByMac(s, selection.value, probe);
      if ok then t.(attempts := t.attempts - {NormalizeMac(selection.value)}) else t
  }

  /** After a successful connect by hand, auto-reconnect no longer counts the dispenser as failing. */
  lemma {:induction false} ConnectClearsCounter(s: FleetState, mac: Mac, probe: Ip -> Reply)
    requires mac !in s.connected && mac in s.saved && MacMatches(probe(s.saved[mac].ip), mac)
    ensures mac in ConnectToDevice(s, Some(mac), probe).connected
    ensures NormalizeMac(mac) !in ConnectToDevice(s, Some(mac), probe).attempts
  {
  }

  /**
   * The counter of a dispenser saved under a MAC written with colons survives
   * a successful connect by hand: e.g. `aa:bb:cc:dd:ee:ff` whose counter
   * `AABBCCDDEEFF` reached the limit is never auto-reconnected again.
   */
  lemma {:induction false} ConnectAsWrittenKeepsCounter(s: FleetState, mac: Mac, probe: Ip -> Reply)
    requires mac in s.saved && mac !in s.connected && ':' in mac
    requires MacMatches(probe(s.saved[mac].ip), mac)
    ensures mac in ConnectToDeviceAsWritten(s, Some(mac), probe).connected
    ensures AttemptCount(ConnectToDeviceAsWritten(s, Some(mac), probe), NormalizeMac(mac))
            == AttemptCount(s, NormalizeMac(mac))
  {
    assert ':' !in NormalizeMac(mac);
  }

  // ---------------------------------------------------------------------------
  // Auto-reconnect after a scan (renderer.js:790-861)

  function AttemptCount(s: FleetState, n: string): nat
  {
    if n in s.attempts then s.attempts[n] else 0
  }

  /** Why `attemptAutoReconnect` passes over a saved dispenser. */
  predicate Skipped(s: FleetState, mac: Mac)
  {
    mac in s.connected || mac in s.manual || AttemptCount(s, NormalizeMac(mac)) >= MaxReconnectAttempts
  }

  /** The address a scan found for the dispenser, if any. */
  predicate FoundAt(found: map<string, Ip>, mac: Mac)
  {
    NormalizeMac(mac) in found && found[NormalizeMac(mac)] != ""
  }

  /** One pass of the loop body for the saved dispenser `mac`. */
  function ReconnectStep(s: FleetState, mac: Mac, found: map<string, Ip>, probe: Ip -> Reply): (r: FleetState)
    requires mac in s.saved
    ensures Valid(s) ==> Valid(r)
    ensures r.saved.Keys == s.saved.Keys && r.savedOrder == s.savedOrder && r.manual == s.manual
    ensures r.stored == s.stored && r.ledger == s.ledger && r.netRows == s.netRows
    ensures s.connected.Keys <= r.connected.Keys
    ensures forall m :: m in s.connected ==> r.connected[m] == s.connected[m]
    ensures Skipped(s, mac) || !FoundAt(found, mac) ==> r == s
  {
    var n := NormalizeMac(mac);
    if Skipped(s, mac) || !FoundAt(found, mac) then s
    else
      var count := AttemptCount(s, n);
      var s1 := s.(saved := s.saved[mac := s.saved[mac].(ip := found[n])]);
      var c := ConnectByMac(s1, mac, probe);
      if c.1 then c.0.(attempts := s.attempts - {n}) else c.0.(attempts := s.attempts[n := count + 1])
  }

  /**
   * A saved dispenser that is not skipped and that the scan found takes the
   * found address, is probed there, and either connects and loses its counter
   * or stays disconnected with its counter one higher; nothing else changes.
   */
  lemma {:induction false} ReconnectTried(s: FleetState, mac: Mac, found: map<string, Ip>, probe: Ip -> Reply)
    requires mac in s.saved && !Skipped(s, mac) && FoundAt(found, mac)
    ensures var r := ReconnectStep(s, mac, found, probe);
      r.saved == s.saved[mac := s.saved[mac].(ip := found[NormalizeMac(mac)])]
    ensures var r := ReconnectStep(s, mac, found, probe);
      mac in r.connected <==> MacMatches(probe(found[NormalizeMac(mac)]), mac)
    ensures var r := ReconnectStep(s, mac, found, probe);
      mac in r.connected ==> NormalizeMac(mac) !in r.attempts
    ensures var r := ReconnectStep(s, mac, found, probe);
      mac !in r.connected ==> AttemptCount(r, NormalizeMac(mac)) == AttemptCount(s, NormalizeMac(mac)) + 1
    ensures var r := ReconnectStep(s, mac, found, probe);
      forall k :: k != NormalizeMac(mac) ==> AttemptCount(r, k) == AttemptCount(s, k)
    ensures var r := ReconnectStep(s, mac, found, probe);
      forall m :: m != mac ==> (m in r.connected <==> m in s.connected)
  {
    var n := NormalizeMac(mac);
    var s1 := s.(saved := s.saved[mac := s.saved[mac].(ip := found[n])]);
    var c := ConnectByMac(s1, mac, probe);
    var r := ReconnectStep(s, mac, found, probe);
    assert r == if c.1 then c.0.(attempts := s.attempts - {n})
                else c.0.(attempts := s.attempts[n := AttemptCount(s, n) + 1]);
    assert s1.saved[mac].ip == found[n];
    assert r.saved == s1.saved;
    if c.1 {
      assert r.connected == s.connected[mac := r.connected[mac]];
    } else {
      assert r.connected == s.connected && mac !in s.connected;
    }
  }

  /** The loop over `macs`, the saved MACs in their enumeration order. */
  function Reconnect(s: FleetState, macs: seq<Mac>, found: map<string, Ip>, probe: Ip -> Reply): (r: FleetState)
    requires forall m :: m in macs ==> m in s.saved
    ensures Valid(s) ==> Valid(r)
    ensures r.saved.Keys == s.saved.Keys && r.savedOrder == s.savedOrder && r.manual == s.manual
    ensures r.stored == s.stored && r.ledger == s.ledger && r.netRows == s.netRows
    ensures s.connected.Keys <= r.connected.Keys
    ensures forall m :: m in s.connected ==> r.connected[m] == s.connected[m]
  {
    if |macs| == 0 then s
    else
      var t := Reconnect(s, macs[..|macs| - 1], found, probe);
      assert macs[|macs| - 1] in macs;
      ReconnectStep(t, macs[|macs| - 1], found, probe)
  }

  /** No reconnect counter goes past the limit. */
  predicate CountersBounded(s: FleetState)
  {
    forall n :: n in s.attempts ==> s.attempts[n] <= MaxReconnectAttempts
  }

  lemma {:induction false} ReconnectKeepsCountersBounded(s: FleetState, macs: seq<Mac>, found: map<string, Ip>,
                                                         probe: Ip -> Reply)
    requires forall m :: m in macs ==> m in s.saved
    requires CountersBounded(s)
    ensures CountersBounded(Reconnect(s, macs, found, probe))
  {
    if |macs| > 0 {
      ReconnectKeepsCountersBounded(s, macs[..|macs| - 1], found, probe);
      var t := Reconnect(s, macs[..|macs| - 1], found, probe);
      assert macs[|macs| - 1] in macs;
      var r := ReconnectStep(t, macs[|macs| - 1], found, probe);
      forall n | n in r.attempts
        ensures r.attempts[n] <= MaxReconnectAttempts
      {
        if n != NormalizeMac(macs[|macs| - 1]) {
          assert n in t.attempts;
        }
      }
    }
  }

  /** The loop leaves a connected or hand-disconnected dispenser's saved entry alone, and never connects the latter. */
  lemma {:induction false} ReconnectLeavesSkippedAlone(s: FleetState, macs: seq<Mac>, found: map<string, Ip>,
                                                       probe: Ip -> Reply, m: Mac)
    requires forall x :: x in macs ==> x in s.saved
    requires m in s.saved && (m in s.connected || m in s.manual)
    ensures Reconnect(s, macs, found, probe).saved[m] == s.saved[m]
    ensures m in Reconnect(s, macs, found, probe).connected <==> m in s.connected
  {
    if |macs| > 0 {
      var init := macs[..|macs| - 1];
      assert forall x :: x in init ==> x in macs;
      ReconnectLeavesSkippedAlone(s, init, found, probe, m);
      var t := Reconnect(s, init, found, probe);
      var last := macs[|macs| - 1];
      assert last in macs;
      assert Reconnect(s, macs, found, probe) == ReconnectStep(t, last, found, probe);
      if last == m {
        assert Skipped(t, m);
      } else {
        ReconnectStepOthers(t, last, found, probe, m);
      }
    }
  }

  /** One pass for `mac` touches neither the saved entry nor the connection of another dispenser. */
  lemma {:induction false} ReconnectStepOthers(s: FleetState, mac: Mac, found: map<string, Ip>, probe: Ip -> Reply, m: Mac)
    requires mac in s.saved && m in s.saved && m != mac
    ensures ReconnectStep(s, mac, found, probe).saved[m] == s.saved[m]
    ensures m in ReconnectStep(s, mac, found, probe).connected <==> m in s.connected
  {
    if !Skipped(s, mac) && FoundAt(found, mac) {
      var n := NormalizeMac(mac);
      var s1 := s.(saved := s.saved[mac := s.saved[mac].(ip := found[n])]);
      var c := ConnectByMac(s1, mac, probe);
      assert s1.saved[m] == s.saved[m];
      assert c.1 ==> c.0.connected == s.connected[mac := c.0.connected[mac]];
    }
  }

  // ---------------------------------------------------------------------------
  // Network prefix (renderer.js:418-447, 493-508)

  /**
   * `detectNetworks` with the main process's answer: a prefix becomes the only
   * network; `true` means a scan follows.
   */
  function DetectNetworks(s: FleetState, prefix: Option<string>): (r: (FleetState, bool))
    ensures r.1 <==> prefix.Some?
    ensures prefix.None? ==> r.0 == s
    ensures prefix.Some? ==> r.0 == s.(networkPrefix := prefix, networks := [prefix.value])
  {
    if prefix.None? then (s, false)
    else (s.(networkPrefix := prefix, networks := [prefix.value]), true)
  }

  /** `saveNetworkPrefix`: accept a trimmed input ending in `.`; `true` means a scan follows. */
  function SaveNetworkPrefix(s: FleetState, input: string): (r: (FleetState, bool))
    ensures r.1 <==> Trim(input) != "" && EndsWith(Trim(input), ".")
    ensures !r.1 ==> r.0 == s
    ensures r.1 ==>
      r.0.networkPrefix == Some(Trim(input)) && Trim(input) in r.0.networks
      && r.0.networks == (if Trim(input) in s.networks then s.networks else s.networks + [Trim(input)])
      && r.0 == s.(networkPrefix := r.0.networkPrefix, networks := r.0.networks)
  {
    var prefix := Trim(input);
    if prefix != "" && EndsWith(prefix, ".") then
      (s.(networkPrefix := Some(prefix),
          networks := if prefix in s.networks then s.networks else s.networks + [prefix]), true)
    else (s, false)
  }

  // ---------------------------------------------------------------------------
  // The renderer's scan (renderer.js:534-656)

  /**
   * The `results` object of `scanNetwork`: one entry per probed address, in
   * the order the probes finished (`arrival` lists target indices).
   */
  function ScanResults(prefix: string, probe: Ip -> Reply, arrival: seq<nat>): (r: seq<ScanResult>)
    requires forall j :: 0 <= j < |arrival| ==> arrival[j] < 255
    ensures |r| == |arrival|
    ensures forall j :: 0 <= j < |r| ==>
      r[j].0 == prefix + NatToString(arrival[j] + 1) && r[j].1 == CheckIp(probe(r[j].0))
  {
    seq(|arrival|, j requires 0 <= j < |arrival| =>
      var ip := RendererScanTargets(prefix)[arrival[j]];
      (ip, CheckIp(probe(ip))))
  }

  /** Every probed address lies under the prefix, so the prefix test never drops a reply that carries a MAC. */
  lemma {:induction false} ScanContributions(prefix: string, probe: Ip -> Reply, arrival: seq<nat>)
    requires forall j :: 0 <= j < |arrival| ==> arrival[j] < 255
    ensures forall e :: e in ScanResults(prefix, probe, arrival) ==>
      (Contributes(e, prefix) <==> e.1.Some? && HasMac(e.1.value))
  {
    var r := ScanResults(prefix, probe, arrival);
    forall e | e in r
      ensures StartsWith(e.0, prefix)
    {
      var j :| 0 <= j < |r| && r[j] == e;
      assert e.0[..|prefix|] == prefix;
    }
  }

  // ---------------------------------------------------------------------------
  // The network table after a scan (renderer.js:545-757)

  /** The status cell of a dispenser that is dispensing. */
  predicate ShowsDispensing(row: NetRow)
  {
    row.status == Dispensing.Label()
  }

  /** A row `existingDevices` takes in: both its address and its MAC cell hold text. */
  predicate Listed(row: NetRow)
  {
    row.ip != "" && row.mac != "" && row.ip != "&nbsp;" && row.mac != "&nbsp;"
  }

  /**
   * The row `existingDevices.get(mac)` finds among `rows[..n]`: the last
   * listed row with that MAC text, since a later row replaces an earlier one
   * under the same key of the `Map`.
   */
  function LastListed(rows: seq<NetRow>, mac: Mac, n: nat): (r: Option<nat>)
    requires n <= |rows|
    ensures r.Some? ==> r.value < n && Listed(rows[r.value]) && rows[r.value].mac == mac
    ensures forall j :: 0 <= j < n && Listed(rows[j]) && rows[j].mac == mac ==> r.Some? && j <= r.value
  {
    if n == 0 then None
    else if Listed(rows[n - 1]) && rows[n - 1].mac == mac then Some(n - 1)
    else LastListed(rows, mac, n - 1)
  }

  /**
   * The entry the `for ... of Object.entries(connectedDevices)` loop stops
   * at: the first key of `order` in `c` that normalises to `key`.
   */
  function FirstAlike(order: seq<Mac>, c: map<Mac, ConnectedDevice>, key: string): (r: Option<Mac>)
    ensures r.Some? ==> r.value in order && r.value in c && NormalizeMac(r.value) == key
    ensures r.None? ==> forall m :: m in order && m in c ==> NormalizeMac(m) != key
  {
    if |order| == 0 then None
    else if order[0] in c && NormalizeMac(order[0]) == key then Some(order[0])
    else
      assert forall x :: x in order ==> x == order[0] || x in order[1..];
      FirstAlike(order[1..], c, key)
  }

  /** Only the keys of `c` matter to `FirstAlike`, not the entries. */
  lemma {:induction false} FirstAlikeKeys(order: seq<Mac>, c: map<Mac, ConnectedDevice>, d: map<Mac, ConnectedDevice>,
                                          key: string)
    requires c.Keys == d.Keys
    ensures FirstAlike(order, c, key) == FirstAlike(order, d, key)
    decreases |order|
  {
    if |order| > 0 {
      FirstAlikeKeys(order[1..], c, d, key);
    }
  }

  /** The first connected dispenser whose MAC normalises to `key` becomes 연결됨. */
  function Revive(c: map<Mac, ConnectedDevice>, order: seq<Mac>, key: string): (r: map<Mac, ConnectedDevice>)
    ensures r.Keys == c.Keys
    ensures forall m :: m in c ==> r[m] == c[m] || (NormalizeMac(m) == key && r[m] == c[m].(status := Connected))
    ensures FirstAlike(order, c, key).Some? ==> r[FirstAlike(order, c, key).value].status == Connected
  {
    match FirstAlike(order, c, key)
    case None => c
    case Some(m) => c[m := c[m].(status := Connected)]
  }

  /** The state of the first phase: the table rows, the rows appended, and `connectedDevices`. */
  datatype Pass = Pass(rows: seq<NetRow>, added: seq<NetRow>, connected: map<Mac, ConnectedDevice>)

  /**
   * One entry of `uniqueDevices` (renderer.js:671-739), against the table
   * `rows0` before the scan: a row with its MAC gets the new address and,
   * unless it shows 시럽 조제 중, the reported status, and the first connected
   * dispenser with that MAC becomes 연결됨; with no such row a row is appended.
   */
  function FoundStep(rows0: seq<NetRow>, order: seq<Mac>, p: Pass, u: Sighting): (r: Pass)
    requires |p.rows| == |rows0|
    ensures |r.rows| == |rows0|
  {
    match LastListed(rows0, u.mac, |rows0|)
    case None => p.(added := p.added + [NetRow(u.ip, u.mac, u.status)])
    case Some(i) =>
      if ShowsDispensing(p.rows[i]) then p.(rows := p.rows[i := p.rows[i].(ip := u.ip)])
      else
        p.(rows := p.rows[i := NetRow(u.ip, p.rows[i].mac, u.status)],
           connected := Revive(p.connected, order, NormalizeMac(u.mac)))
  }

  /**
   * A step keeps the MAC of every row and the keys of `connectedDevices`,
   * and changes an entry only to make it 연결됨 when its key is the entry's.
   */
  lemma {:induction false} FoundStepFrame(rows0: seq<NetRow>, order: seq<Mac>, p: Pass, u: Sighting)
    requires |p.rows| == |rows0|
    ensures var r := FoundStep(rows0, order, p, u);
      && r.connected.Keys == p.connected.Keys
      && (forall i :: 0 <= i < |rows0| ==> r.rows[i].mac == p.rows[i].mac)
      && (forall m :: m in p.connected ==>
            r.connected[m] == p.connected[m] || (NormalizeMac(m) == NormalizeMac(u.mac) && r.connected[m].status == Connected))
  {
  }

  /** The first phase over `uniq[..n]`. */
  function FoundPass(rows0: seq<NetRow>, order: seq<Mac>, c0: map<Mac, ConnectedDevice>, uniq: seq<Sighting>, n: nat)
    : (r: Pass)
    requires n <= |uniq|
    ensures |r.rows| == |rows0|
  {
    if n == 0 then Pass(rows0, [], c0)
    else FoundStep(rows0, order, FoundPass(rows0, order, c0, uniq, n - 1), uniq[n - 1])
  }

  /**
   * The first phase keeps the MAC of every row and the keys of
   * `connectedDevices`; it changes an entry only to make it 연결됨, and not
   * at all when no entry of `uniq[..n]` has its key.
   */
  lemma {:induction false} FoundPassFrame(rows0: seq<NetRow>, order: seq<Mac>, c0: map<Mac, ConnectedDevice>,
                                          uniq: seq<Sighting>, n: nat)
    requires n <= |uniq|
    ensures var r := FoundPass(rows0, order, c0, uniq, n);
      && r.connected.Keys == c0.Keys
      && (forall i :: 0 <= i < |rows0| ==> r.rows[i].mac == rows0[i].mac)
      && (forall m :: m in c0 ==> r.connected[m] == c0[m] || r.connected[m].status == Connected)
      && (forall m :: m in c0 && (forall j :: 0 <= j < n ==> NormalizeMac(uniq[j].mac) != NormalizeMac(m)) ==>
            r.connected[m] == c0[m])
  {
    if n > 0 {
      FoundPassFrame(rows0, order, c0, uniq, n - 1);
      FoundStepFrame(rows0, order, FoundPass(rows0, order, c0, uniq, n - 1), uniq[n - 1]);
    }
  }

  /** Row `i` of the table before the scan is still in `existingDevices` after the first phase. */
  predicate Unfound(rows0: seq<NetRow>, uniq: seq<Sighting>, i: int)
  {
    0 <= i < |rows0| && Listed(rows0[i]) && LastListed(rows0, rows0[i].mac, |rows0|) == Some(i)
    && forall j :: 0 <= j < |uniq| ==> uniq[j].mac != rows0[i].mac
  }

  /** `Object.keys(connectedDevices).some(...)`: a connected key normalises like `mac`. */
  predicate ConnectedAlike(c: map<Mac, ConnectedDevice>, mac: Mac)
  {
    exists m :: m in c && NormalizeMac(m) == NormalizeMac(mac)
  }

  /**
   * The second phase over `rows[..n]` (renderer.js:742-757): a row left in
   * `existingDevices` shows 일시적 응답 없음 when its dispenser is connected
   * and is removed otherwise; every other row stays as the first phase left it.
   */
  function Prune(rows0: seq<NetRow>, rows: seq<NetRow>, uniq: seq<Sighting>, c: map<Mac, ConnectedDevice>, n: nat)
    : (r: seq<NetRow>)
    requires n <= |rows| == |rows0|
    ensures forall row :: row in r <==> exists i :: 0 <= i < n && Kept(rows0, rows, uniq, c, i, row)
  {
    if n == 0 then []
    else
      var prev := Prune(rows0, rows, uniq, c, n - 1);
      var i := n - 1;
      if !Unfound(rows0, uniq, i) then
        assert Kept(rows0, rows, uniq, c, i, rows[i]);
        prev + [rows[i]]
      else if ConnectedAlike(c, rows0[i].mac) then
        assert Kept(rows0, rows, uniq, c, i, rows[i].(status := Unresponsive.Label()));
        prev + [rows[i].(status := Unresponsive.Label())]
      else prev
  }

  /** What row `i` of the first phase's table becomes in the second phase, when it stays. */
  predicate Kept(rows0: seq<NetRow>, rows: seq<NetRow>, uniq: seq<Sighting>, c: map<Mac, ConnectedDevice>, i: int,
                 row: NetRow)
    requires |rows| == |rows0|
  {
    0 <= i < |rows|
    && ((!Unfound(rows0, uniq, i) && row == rows[i])
        || (Unfound(rows0, uniq, i) && ConnectedAlike(c, rows0[i].mac) && row == rows[i].(status := Unresponsive.Label())))
  }

  /**
   * The network table and `connectedDevices` after a scan whose
   * `uniqueDevices` entries are `uniq`: the kept rows in table order, then
   * the appended rows.
   */
  function ScanTable(s: FleetState, uniq: seq<Sighting>): (r: FleetState)
    ensures r == s.(connected := r.connected, netRows := r.netRows)
    ensures r.connected.Keys == s.connected.Keys
    ensures forall m :: m in s.connected ==> r.connected[m] == s.connected[m] || r.connected[m].status == Connected
    ensures forall m :: m in s.connected && (forall j :: 0 <= j < |uniq| ==> NormalizeMac(uniq[j].mac) != NormalizeMac(m)) ==>
      r.connected[m] == s.connected[m]
    ensures Valid(s) ==> Valid(r)
  {
    var p := FoundPass(s.netRows, s.connectedOrder, s.connected, uniq, |uniq|);
    FoundPassFrame(s.netRows, s.connectedOrder, s.connected, uniq, |uniq|);
    s.(connected := p.connected, netRows := Prune(s.netRows, p.rows, uniq, p.connected, |s.netRows|) + p.added)
  }

  /** The entries of `uniqueDevices` have distinct keys, as `foundDevices` guarantees. */
  predicate DistinctKeys(uniq: seq<Sighting>)
  {
    forall a, b :: 0 <= a < b < |uniq| ==> NormalizeMac(uniq[a].mac) != NormalizeMac(uniq[b].mac)
  }

  /** After the first phase, sighting `u` shows in the row with its MAC or in an appended row. */
  predicate Shown(p: Pass, rows0: seq<NetRow>, u: Sighting)
    requires |p.rows| == |rows0|
  {
    match LastListed(rows0, u.mac, |rows0|)
    case None => NetRow(u.ip, u.mac, u.status) in p.added
    case Some(i) =>
      p.rows[i].ip == u.ip && p.rows[i].mac == u.mac && (p.rows[i].status == u.status || ShowsDispensing(p.rows[i]))
  }

  /** Entry `j` of `uniqueDevices` shows after the first phase; no later entry overwrites its row. */
  lemma {:induction false} FoundPassShows(rows0: seq<NetRow>, order: seq<Mac>, c0: map<Mac, ConnectedDevice>,
                                          uniq: seq<Sighting>, n: nat, j: nat)
    requires j < n <= |uniq| && DistinctKeys(uniq)
    ensures Shown(FoundPass(rows0, order, c0, uniq, n), rows0, uniq[j])
  {
    var p := FoundPass(rows0, order, c0, uniq, n - 1);
    var u := uniq[n - 1];
    assert FoundPass(rows0, order, c0, uniq, n) == FoundStep(rows0, order, p, u);
    if j == n - 1 {
      FoundPassFrame(rows0, order, c0, uniq, n - 1);
      ShownNow(rows0, order, p, u);
    } else {
      FoundPassShows(rows0, order, c0, uniq, n - 1, j);
      assert NormalizeMac(uniq[j].mac) != NormalizeMac(u.mac);
      ShownStays(rows0, order, p, u, uniq[j]);
    }
  }

  /** The entry just handled shows. */
  lemma {:induction false} ShownNow(rows0: seq<NetRow>, order: seq<Mac>, p: Pass, u: Sighting)
    requires |p.rows| == |rows0| && forall i :: 0 <= i < |rows0| ==> p.rows[i].mac == rows0[i].mac
    ensures Shown(FoundStep(rows0, order, p, u), rows0, u)
  {
  }

  /** An entry with another key keeps showing: its row is not the one the step writes. */
  lemma {:induction false} ShownStays(rows0: seq<NetRow>, order: seq<Mac>, p: Pass, u: Sighting, v: Sighting)
    requires |p.rows| == |rows0| && Shown(p, rows0, v) && NormalizeMac(v.mac) != NormalizeMac(u.mac)
    ensures Shown(FoundStep(rows0, order, p, u), rows0, v)
  {
    var i := LastListed(rows0, v.mac, |rows0|);
    var i' := LastListed(rows0, u.mac, |rows0|);
    assert i.Some? && i'.Some? ==> i.value != i'.value;
  }

  /** A row whose MAC no entry of `uniq[..n]` carries is as it was before the scan. */
  lemma {:induction false} FoundPassKeepsRows(rows0: seq<NetRow>, order: seq<Mac>, c0: map<Mac, ConnectedDevice>,
                                              uniq: seq<Sighting>, n: nat)
    requires n <= |uniq|
    ensures forall i :: 0 <= i < |rows0| && (forall j :: 0 <= j < n ==> uniq[j].mac != rows0[i].mac) ==>
      FoundPass(rows0, order, c0, uniq, n).rows[i] == rows0[i]
  {
    if n > 0 {
      FoundPassKeepsRows(rows0, order, c0, uniq, n - 1);
    }
  }

  /** Every appended row is the row of some entry of `uniq[..n]`. */
  lemma {:induction false} FoundPassAdds(rows0: seq<NetRow>, order: seq<Mac>, c0: map<Mac, ConnectedDevice>,
                                         uniq: seq<Sighting>, n: nat)
    requires n <= |uniq|
    ensures forall row :: row in FoundPass(rows0, order, c0, uniq, n).added ==>
      exists j :: 0 <= j < n && row == NetRow(uniq[j].ip, uniq[j].mac, uniq[j].status)
  {
    if n > 0 {
      FoundPassAdds(rows0, order, c0, uniq, n - 1);
    }
  }

  /** A dispenser that is 연결됨 stays so for the rest of the first phase. */
  lemma {:induction false} FoundPassKeepsConnected(rows0: seq<NetRow>, order: seq<Mac>, c0: map<Mac, ConnectedDevice>,
                                                   uniq: seq<Sighting>, a: nat, n: nat, m: Mac)
    requires a <= n <= |uniq|
    requires m in FoundPass(rows0, order, c0, uniq, a).connected
    requires FoundPass(rows0, order, c0, uniq, a).connected[m].status == Connected
    ensures m in FoundPass(rows0, order, c0, uniq, n).connected
    ensures FoundPass(rows0, order, c0, uniq, n).connected[m].status == Connected
  {
    if n > a {
      FoundPassKeepsConnected(rows0, order, c0, uniq, a, n - 1, m);
      ConnectedStays(rows0, order, FoundPass(rows0, order, c0, uniq, n - 1), uniq[n - 1], m);
    }
  }

  /** One step of the first phase never takes 연결됨 away. */
  lemma {:induction false} ConnectedStays(rows0: seq<NetRow>, order: seq<Mac>, p: Pass, u: Sighting, m: Mac)
    requires |p.rows| == |rows0| && m in p.connected && p.connected[m].status == Connected
    ensures m in FoundStep(rows0, order, p, u).connected
    ensures FoundStep(rows0, order, p, u).connected[m].status == Connected
  {
    FoundStepFrame(rows0, order, p, u);
  }

  /**
   * Entry `j` found in a row that does not show 시럽 조제 중 makes the first
   * connected dispenser with its key 연결됨, for the rest of the first phase.
   */
  lemma {:induction false} FoundPassRevives(rows0: seq<NetRow>, order: seq<Mac>, c0: map<Mac, ConnectedDevice>,
                                            uniq: seq<Sighting>, j: nat, i: nat)
    requires j < |uniq| && DistinctKeys(uniq)
    requires LastListed(rows0, uniq[j].mac, |rows0|) == Some(i) && !ShowsDispensing(rows0[i])
    requires FirstAlike(order, c0, NormalizeMac(uniq[j].mac)).Some?
    ensures var m := FirstAlike(order, c0, NormalizeMac(uniq[j].mac)).value;
      m in FoundPass(rows0, order, c0, uniq, |uniq|).connected
      && FoundPass(rows0, order, c0, uniq, |uniq|).connected[m].status == Connected
  {
    var m := FirstAlike(order, c0, NormalizeMac(uniq[j].mac)).value;
    var p := FoundPass(rows0, order, c0, uniq, j);
    assert p.rows[i] == rows0[i] by {
      forall k | 0 <= k < j
        ensures uniq[k].mac != rows0[i].mac
      {
        assert NormalizeMac(uniq[k].mac) != NormalizeMac(uniq[j].mac);
      }
      FoundPassKeepsRows(rows0, order, c0, uniq, j);
    }
    assert p.connected.Keys == c0.Keys by {
      FoundPassFrame(rows0, order, c0, uniq, j);
    }
    FirstAlikeKeys(order, c0, p.connected, NormalizeMac(uniq[j].mac));
    RevivedNow(rows0, order, p, uniq[j], i);
    assert FoundPass(rows0, order, c0, uniq, j + 1) == FoundStep(rows0, order, p, uniq[j]);
    FoundPassKeepsConnected(rows0, order, c0, uniq, j + 1, |uniq|, m);
  }

  /** The step for an entry found in a row that does not show 시럽 조제 중 makes its first connected dispenser 연결됨. */
  lemma {:induction false} RevivedNow(rows0: seq<NetRow>, order: seq<Mac>, p: Pass, u: Sighting, i: nat)
    requires |p.rows| == |rows0| && LastListed(rows0, u.mac, |rows0|) == Some(i)
    requires p.rows[i] == rows0[i] && !ShowsDispensing(rows0[i])
    requires FirstAlike(order, p.connected, NormalizeMac(u.mac)).Some?
    ensures var m := FirstAlike(order, p.connected, NormalizeMac(u.mac)).value;
      m in FoundStep(rows0, order, p, u).connected && FoundStep(rows0, order, p, u).connected[m].status == Connected
  {
  }

  /**
   * After the scan every entry of `uniqueDevices` has a row with its address
   * and MAC, showing its reported status unless the row shows 시럽 조제 중.
   */
  lemma {:induction false} ScanTableShows(s: FleetState, uniq: seq<Sighting>)
    requires DistinctKeys(uniq)
    ensures forall j :: 0 <= j < |uniq| ==>
      exists row :: (row in ScanTable(s, uniq).netRows
                     && row.ip == uniq[j].ip && row.mac == uniq[j].mac && (row.status == uniq[j].status || ShowsDispensing(row)))
  {
    var rows0 := s.netRows;
    var p := FoundPass(rows0, s.connectedOrder, s.connected, uniq, |uniq|);
    var kept := Prune(rows0, p.rows, uniq, p.connected, |rows0|);
    assert ScanTable(s, uniq).netRows == kept + p.added;
    forall j | 0 <= j < |uniq|
      ensures exists row :: (row in kept + p.added
                             && row.ip == uniq[j].ip && row.mac == uniq[j].mac && (row.status == uniq[j].status || ShowsDispensing(row)))
    {
      FoundPassShows(rows0, s.connectedOrder, s.connected, uniq, |uniq|, j);
      match LastListed(rows0, uniq[j].mac, |rows0|)
      case None =>
        assert NetRow(uniq[j].ip, uniq[j].mac, uniq[j].status) in kept + p.added;
      case Some(i) =>
        assert !Unfound(rows0, uniq, i);
        assert Kept(rows0, p.rows, uniq, p.connected, i, p.rows[i]);
        assert p.rows[i] in kept + p.added;
    }
  }

  /**
   * A found entry whose row does not show 시럽 조제 중 leaves the first
   * connected dispenser with its key 연결됨.
   */
  lemma {:induction false} ScanTableRevives(s: FleetState, uniq: seq<Sighting>, j: nat, i: nat)
    requires j < |uniq| && DistinctKeys(uniq)
    requires LastListed(s.netRows, uniq[j].mac, |s.netRows|) == Some(i) && !ShowsDispensing(s.netRows[i])
    requires FirstAlike(s.connectedOrder, s.connected, NormalizeMac(uniq[j].mac)).Some?
    ensures ScanTable(s, uniq).connected[FirstAlike(s.connectedOrder, s.connected, NormalizeMac(uniq[j].mac)).value].status
            == Connected
  {
    FoundPassRevives(s.netRows, s.connectedOrder, s.connected, uniq, j, i);
  }

  /** A row no entry claims stays, showing 일시적 응답 없음, when its dispenser is connected. */
  lemma {:induction false} ScanTableMarksUnresponsive(s: FleetState, uniq: seq<Sighting>, i: nat)
    requires Unfound(s.netRows, uniq, i) && ConnectedAlike(s.connected, s.netRows[i].mac)
    ensures s.netRows[i].(status := Unresponsive.Label()) in ScanTable(s, uniq).netRows
  {
    var rows0 := s.netRows;
    var p := FoundPass(rows0, s.connectedOrder, s.connected, uniq, |uniq|);
    FoundPassKeepsRows(rows0, s.connectedOrder, s.connected, uniq, |uniq|);
    FoundPassFrame(rows0, s.connectedOrder, s.connected, uniq, |uniq|);
    var m :| m in s.connected && NormalizeMac(m) == NormalizeMac(rows0[i].mac);
    assert m in p.connected;
    assert Kept(rows0, p.rows, uniq, p.connected, i, rows0[i].(status := Unresponsive.Label()));
  }

  /** No two listed rows of the table carry the same MAC text. */
  predicate UniqueRows(rows: seq<NetRow>)
  {
    forall a, b :: 0 <= a < b < |rows| && Listed(rows[a]) && Listed(rows[b]) ==> rows[a].mac != rows[b].mac
  }

  /**
   * In a table without repeated MACs, every listed row after the scan that
   * no entry reports belongs to a connected dispenser and shows 일시적 응답
   * 없음: the other unclaimed rows are removed.
   */
  lemma {:induction false} ScanTableDropsStale(s: FleetState, uniq: seq<Sighting>)
    requires UniqueRows(s.netRows)
    ensures forall row :: (row in ScanTable(s, uniq).netRows && Listed(row) && (forall j :: 0 <= j < |uniq| ==> uniq[j].mac != row.mac)
                           ==> ConnectedAlike(s.connected, row.mac) && row.status == Unresponsive.Label())
  {
    var rows0 := s.netRows;
    var p := FoundPass(rows0, s.connectedOrder, s.connected, uniq, |uniq|);
    var kept := Prune(rows0, p.rows, uniq, p.connected, |rows0|);
    assert ScanTable(s, uniq).netRows == kept + p.added;
    FoundPassKeepsRows(rows0, s.connectedOrder, s.connected, uniq, |uniq|);
    FoundPassAdds(rows0, s.connectedOrder, s.connected, uniq, |uniq|);
    FoundPassFrame(rows0, s.connectedOrder, s.connected, uniq, |uniq|);
    forall row | row in kept + p.added && Listed(row) && (forall j :: 0 <= j < |uniq| ==> uniq[j].mac != row.mac)
      ensures ConnectedAlike(s.connected, row.mac) && row.status == Unresponsive.Label()
    {
      if row in p.added {
        assert false;
      } else {
        var k :| 0 <= k < |rows0| && Kept(rows0, p.rows, uniq, p.connected, k, row);
        assert row.mac == rows0[k].mac;
        if !Unfound(rows0, uniq, k) {
          assert p.rows[k] == rows0[k];
          UniqueLast(rows0, k);
          assert false;
        } else {
          var m :| m in p.connected && NormalizeMac(m) == NormalizeMac(rows0[k].mac);
          assert m in s.connected;
        }
      }
    }
  }

  /** In a table without repeated MACs, a listed row is the row its MAC finds. */
  lemma {:induction false} UniqueLast(rows: seq<NetRow>, k: nat)
    requires UniqueRows(rows) && k < |rows| && Listed(rows[k])
    ensures LastListed(rows, rows[k].mac, |rows|) == Some(k)
  {
  }

  /**
   * The whole scan (renderer.js:663-778): after the table update and the
   * reconnection attempts every dispenser the scan reported has a row with
   * its address and MAC.
   */
  lemma {:induction false} ScanShowsSightings(s: FleetState, results: seq<ScanResult>, prefix: string, probe: Ip -> Reply)
    requires Valid(s)
    ensures var (found, uniq) := Reduce(results, prefix, |results|);
      var r := Reconnect(ScanTable(s, uniq), s.savedOrder, found, probe);
      forall j :: 0 <= j < |uniq| ==>
        exists row :: (row in r.netRows
                       && row.ip == uniq[j].ip && row.mac == uniq[j].mac && (row.status == uniq[j].status || ShowsDispensing(row)))
  {
    var (found, uniq) := Reduce(results, prefix, |results|);
    ReduceIndexes(results, prefix, |results|);
    assert DistinctKeys(uniq);
    ScanTableShows(s, uniq);
  }

  /**
   * A reported dispenser whose row does not show 시럽 조제 중 leaves the
   * first connected entry with its key 연결됨 once the scan is over.
   */
  lemma {:induction false} ScanRevivesConnected(s: FleetState, results: seq<ScanResult>, prefix: string, probe: Ip -> Reply,
                                                j: nat, i: nat)
    requires Valid(s)
    requires var uniq := Reduce(results, prefix, |results|).1;
      j < |uniq| && LastListed(s.netRows, uniq[j].mac, |s.netRows|) == Some(i) && !ShowsDispensing(s.netRows[i])
      && FirstAlike(s.connectedOrder, s.connected, NormalizeMac(uniq[j].mac)).Some?
    ensures var (found, uniq) := Reduce(results, prefix, |results|);
      var r := Reconnect(ScanTable(s, uniq), s.savedOrder, found, probe);
      var m := FirstAlike(s.connectedOrder, s.connected, NormalizeMac(uniq[j].mac)).value;
      m in r.connected && r.connected[m].status == Connected
  {
    var (found, uniq) := Reduce(results, prefix, |results|);
    ReduceIndexes(results, prefix, |results|);
    assert DistinctKeys(uniq);
    ScanTableRevives(s, uniq, j, i);
  }
}
