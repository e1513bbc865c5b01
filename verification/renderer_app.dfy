/**
 * The renderer's globals as one object whose methods update them in place,
 * each proved to leave the state its `Fleet`, `HealthCheck` or `Dispensing`
 * specification describes. The transmission tables live in their own
 * `Ledger` object.
 */
module RendererApp {
  import opened Wrappers
  import opened Text
  import opened Ordered
  import opened Devices
  import opened Retry
  import opened Transmission
  import opened Pm3000
  import opened Fleet
  import opened HealthCheck
  import opened Dispensing

  class Renderer {
    var saved: map<Mac, SavedDevice>
    var savedOrder: seq<Mac>
    var connected: map<Mac, ConnectedDevice>
    var connectedOrder: seq<Mac>
    var attempts: map<string, nat>
    var manual: set<Mac>
    var dispensingIps: set<Ip>
    var inProgress: bool
    var autoInProgress: bool
    var checking: bool
    var intervalMs: int
    var delayArmed: bool
    var networkPrefix: Option<string>
    var networks: seq<string>
    var netRows: seq<NetRow>
    var stored: Option<StoredConnections>
    var prescriptions: map<string, Prescription>
    var maxSyrup: int
    const ledger: Ledger

    function State(): FleetState
      reads this, ledger
    {
      FleetState(saved, savedOrder, connected, connectedOrder, attempts, manual, dispensingIps, inProgress,
                 autoInProgress, checking, intervalMs, delayArmed, networkPrefix, networks, netRows, stored, prescriptions, maxSyrup,
                 ledger.State())
    }

    constructor()
      ensures State() == Initial() && fresh(ledger)
    {
      saved, savedOrder := map[], [];
      connected, connectedOrder := map[], [];
      attempts, manual, dispensingIps := map[], {}, {};
      inProgress, autoInProgress, checking := false, false, false;
      intervalMs, delayArmed := NormalIntervalMs, false;
      networkPrefix, networks, netRows, stored := None, [], [], None;
      prescriptions, maxSyrup := map[], DefaultMaxSyrupAmount;
      ledger := new Ledger();
    }

    // -------------------------------------------------------------------------
    // The registry

    /** `saveConnections`. */
    method SaveConnections()
      modifies this
      ensures State() == Persist(old(State()))
    {
      stored := Some(StoredConnections(Some(SavedTable(saved, savedOrder)), Some(manual)));
    }

    method SaveConnection(mac: Mac, ip: Ip, nicknameInput: Option<string>, pillCodeInput: Option<string>)
      modifies this
      ensures State() == Fleet.SaveConnection(old(State()), mac, ip, nicknameInput, pillCodeInput)
    {
      if nicknameInput.None? || pillCodeInput.None? {
        return;
      }
      var nickname := Trim(nicknameInput.value);
      var pillCode := Trim(pillCodeInput.value);
      if nickname == "" || pillCode == "" {
        return;
      }
      saved := saved[mac := SavedDevice(ip, nickname, Some(pillCode))];
      savedOrder := Put(savedOrder, mac);
      ghost var s1 := State();
      assert s1 == old(State()).(saved := saved, savedOrder := savedOrder);
      SaveConnections();
      assert State() == Persist(s1);
    }

    method DisconnectDevice(selection: Option<Mac>)
      modifies this
      ensures State() == Fleet.DisconnectDevice(old(State()), selection)
    {
      if selection.None? || selection.value !in connected {
        return;
      }
      var mac := selection.value;
      connected := connected - {mac};
      connectedOrder := Drop(connectedOrder, mac);
      manual := manual + {mac};
    }

    method DeleteDevice(selection: Option<Mac>)
      modifies this
      ensures State() == Fleet.DeleteDevice(old(State()), selection)
    {
      if selection.None? || selection.value in connected {
        return;
      }
      var mac := selection.value;
      saved := saved - {mac};
      savedOrder := Drop(savedOrder, mac);
      SaveConnections();
    }

    method LoadConnections(file: Option<StoredConnections>)
      modifies this
      ensures State() == Fleet.LoadConnections(old(State()), file)
    {
      if file.None? {
        return;
      }
      if file.value.connections.Some? {
        saved, savedOrder := file.value.connections.value.devices, file.value.connections.value.order;
      } else {
        saved, savedOrder := map[], [];
      }
      if file.value.manual.Some? {
        manual := file.value.manual.value;
      }
    }

    // -------------------------------------------------------------------------
    // Connecting

    /** `connectToDeviceByMac(mac)`; `probe` answers the GET of the saved address. */
    method ConnectToDeviceByMac(mac: Mac, probe: Ip -> Reply) returns (success: bool)
      modifies this
      ensures (State(), success) == ConnectByMac(old(State()), mac, probe)
    {
      if mac !in saved {
        return false;
      }
      var info := saved[mac];
      var response := probe(info.ip);
      if response.Http? && response.code == 200 && HasMac(response.body)
         && NormalizeMac(response.body.mac.value) == NormalizeMac(mac) {
        connected := connected[mac := ConnectedDevice(info.ip, info.nickname, info.pillCode.GetOr(""), Connected)];
        connectedOrder := Put(connectedOrder, mac);
        return true;
      }
      return false;
    }

    /** `connectToDevice`, the Connect button, clearing the counter under the normalised MAC. */
    method ConnectToDevice(selection: Option<Mac>, probe: Ip -> Reply)
      modifies this
      ensures State() == Fleet.ConnectToDevice(old(State()), selection, probe)
    {
      if selection.None? || selection.value in connected {
        return;
      }
      var mac := selection.value;
      var success := ConnectToDeviceByMac(mac, probe);
      if success {
        attempts := attempts - {NormalizeMac(mac)};
      }
    }

    /** One pass of the loop in `attemptAutoReconnect`, for the saved dispenser `mac`. */
    method ReconnectOne(mac: Mac, found: map<string, Ip>, probe: Ip -> Reply)
      requires mac in saved
      modifies this
      ensures State() == ReconnectStep(old(State()), mac, found, probe)
    {
      var n := NormalizeMac(mac);
      var count := if n in attempts then attempts[n] else 0;
      if mac in connected || mac in manual || count >= MaxReconnectAttempts || n !in found || found[n] == "" {
        return;
      }
      assert !Skipped(State(), mac) && FoundAt(found, mac) && count == AttemptCount(State(), n);
      TryAt(mac, found[n], count, probe);
    }

    /** The probe at the address the scan found, and the counter update that follows it. */
    method TryAt(mac: Mac, ip: Ip, count: nat, probe: Ip -> Reply)
      requires mac in saved
      modifies this
      ensures var s1 := old(State()).(saved := old(saved)[mac := old(saved)[mac].(ip := ip)]);
              var c := ConnectByMac(s1, mac, probe);
              State() == if c.1 then c.0.(attempts := old(attempts) - {NormalizeMac(mac)})
                         else c.0.(attempts := old(attempts)[NormalizeMac(mac) := count + 1])
    {
      var n := NormalizeMac(mac);
      saved := saved[mac := saved[mac].(ip := ip)];
      ghost var s1 := State();
      assert s1 == old(State()).(saved := old(saved)[mac := old(saved)[mac].(ip := ip)]);
      var success := ConnectToDeviceByMac(mac, probe);
      ghost var c := ConnectByMac(s1, mac, probe);
      assert State() == c.0 && success == c.1;
      if success {
        attempts := attempts - {n};
      } else {
        attempts := attempts[n := count + 1];
      }
    }

    /** The fold over one more saved dispenser is one more step. */
    static lemma {:induction false} ReconnectNext(s0: FleetState, macs: seq<Mac>, i: nat, found: map<string, Ip>, probe: Ip -> Reply)
      requires i < |macs| && forall m :: m in macs ==> m in s0.saved
      ensures macs[i] in Reconnect(s0, macs[..i], found, probe).saved
      ensures Reconnect(s0, macs[..i + 1], found, probe)
           == ReconnectStep(Reconnect(s0, macs[..i], found, probe), macs[i], found, probe)
    {
      assert macs[..i + 1][..i] == macs[..i];
    }

    /** `attemptAutoReconnect(foundDevices)`: the loop over the saved dispensers. */
    method AttemptAutoReconnect(found: map<string, Ip>, probe: Ip -> Reply)
      requires Valid(State())
      modifies this
      ensures State() == Reconnect(old(State()), old(savedOrder), found, probe)
      ensures Valid(State())
    {
      var macs := savedOrder;
      ghost var s0 := State();
      assert forall m :: m in macs ==> m in s0.saved;
      var i := 0;
      while i < |macs|
        invariant 0 <= i <= |macs|
        invariant State() == Reconnect(s0, macs[..i], found, probe)
      {
        ghost var t := State();
        ReconnectNext(s0, macs, i, found, probe);
        ReconnectOne(macs[i], found, probe);
        ghost var u := ReconnectStep(t, macs[i], found, probe);
        assert State() == u;
        assert u == Reconnect(s0, macs[..i + 1], found, probe);
        i := i + 1;
      }
      assert i == |macs| && macs[..i] == macs;
      assert State() == Reconnect(s0, macs, found, probe);
    }
  

    // -------------------------------------------------------------------------
    // The network prefix and the scan

    /** `detectNetworks` given the main process's answer; `true` means a scan follows. */
    method DetectNetworks(prefix: Option<string>) returns (scan: bool)
      modifies this
      ensures (State(), scan) == Fleet.DetectNetworks(old(State()), prefix)
    {
      if prefix.None? {
        return false;
      }
      networkPrefix := prefix;
      networks := [prefix.value];
      return true;
    }

    /** `saveNetworkPrefix` for the dialog's input; `true` means a scan follows. */
    method SaveNetworkPrefix(input: string) returns (scan: bool)
      modifies this
      ensures (State(), scan) == Fleet.SaveNetworkPrefix(old(State()), input)
    {
      var prefix := Trim(input);
      if prefix == "" || !EndsWith(prefix, ".") {
        return false;
      }
      networkPrefix := Some(prefix);
      if prefix !in networks {
        networks := networks + [prefix];
      }
      return true;
    }

    /**
     * `scanNetwork`: nothing without a prefix; otherwise the replies, in the
     * order they arrived, are reduced to one entry per normalised MAC, the
     * network table and `connectedDevices` are brought up to date, and the
     * addresses found are handed to the reconnect loop. `scanProbe` answers
     * the scan's GETs and `connectProbe` the reconnect loop's.
     */
    method ScanNetwork(scanProbe: Ip -> Reply, arrival: seq<nat>, connectProbe: Ip -> Reply)
      returns (found: map<string, Ip>)
      requires Valid(State())
      requires forall j :: 0 <= j < |arrival| ==> arrival[j] < 255
      modifies this
      ensures Valid(State())
      ensures old(networkPrefix).None? || old(networkPrefix).value == "" ==> found == map[] && State() == old(State())
      ensures old(networkPrefix).Some? && old(networkPrefix).value != "" ==>
        var prefix := old(networkPrefix).value;
        var results := ScanResults(prefix, scanProbe, arrival);
        var (found', uniq) := Reduce(results, prefix, |results|);
        found == found'
        && (forall k :: k in found <==> SeenBy(results, prefix, |results|, k))
        && (forall k :: k in found ==> exists i :: FirstFor(results, prefix, k, i) && found[k] == results[i].0)
        && State() == Reconnect(ScanTable(old(State()), uniq), old(savedOrder), found, connectProbe)
    {
      if networkPrefix.None? || networkPrefix.value == "" {
        return map[];
      }
      var prefix := networkPrefix.value;
      var results := ScanResults(prefix, scanProbe, arrival);
      var uniq;
      found, uniq := ReduceScan(results, prefix);
      UpdateNetworkRows(uniq);
      AttemptAutoReconnect(found, connectProbe);
    }

    /**
     * The table update of `scanNetwork` (renderer.js:663-757): first each
     * entry of `uniqueDevices`, then the rows no entry claimed.
     */
    method UpdateNetworkRows(uniq: seq<Sighting>)
      requires Valid(State())
      modifies this
      ensures State() == ScanTable(old(State()), uniq)
      ensures Valid(State())
    {
      var rows0 := netRows;
      var rows, added := FoundPhase(uniq);
      var kept := PrunePhase(rows0, rows, uniq, connected);
      netRows := kept + added;
    }

    /** The first phase (renderer.js:671-739): rows are updated in `rows` and new ones collected in `added`. */
    method FoundPhase(uniq: seq<Sighting>) returns (rows: seq<NetRow>, added: seq<NetRow>)
      modifies this
      ensures Pass(rows, added, connected) == FoundPass(old(netRows), old(connectedOrder), old(connected), uniq, |uniq|)
      ensures State() == old(State()).(connected := connected)
    {
      var rows0 := netRows;
      rows, added := netRows, [];
      for k := 0 to |uniq|
        invariant Pass(rows, added, connected) == FoundPass(rows0, connectedOrder, old(connected), uniq, k)
        invariant State() == old(State()).(connected := connected)
      {
        var u := uniq[k];
        var i := LastListed(rows0, u.mac, |rows0|);
        if i.None? {
          added := added + [NetRow(u.ip, u.mac, u.status)];
        } else if ShowsDispensing(rows[i.value]) {
          rows := rows[i.value := rows[i.value].(ip := u.ip)];
        } else {
          rows := rows[i.value := NetRow(u.ip, rows[i.value].mac, u.status)];
          ReviveFirst(NormalizeMac(u.mac));
        }
      }
    }

    /** The second phase (renderer.js:742-757) over the rows of the first. */
    static method PrunePhase(rows0: seq<NetRow>, rows: seq<NetRow>, uniq: seq<Sighting>, c: map<Mac, ConnectedDevice>)
      returns (kept: seq<NetRow>)
      requires |rows| == |rows0|
      ensures kept == Prune(rows0, rows, uniq, c, |rows0|)
    {
      kept := [];
      for i := 0 to |rows0|
        invariant kept == Prune(rows0, rows, uniq, c, i)
      {
        if !Unfound(rows0, uniq, i) {
          kept := kept + [rows[i]];
        } else if ConnectedAlike(c, rows0[i].mac) {
          kept := kept + [rows[i].(status := Unresponsive.Label())];
        }
      }
    }

    /**
     * The `for ... of Object.entries(connectedDevices)` loop with `break`:
     * the first dispenser whose MAC normalises to `key` becomes 연결됨.
     */
    method ReviveFirst(key: string)
      modifies this
      ensures State() == old(State()).(connected := Revive(old(connected), old(connectedOrder), key))
    {
      var j := 0;
      while j < |connectedOrder|
        invariant 0 <= j <= |connectedOrder|
        invariant FirstAlike(connectedOrder, connected, key) == FirstAlike(connectedOrder[j..], connected, key)
      {
        var m := connectedOrder[j];
        assert connectedOrder[j..][1..] == connectedOrder[j + 1..];
        if m in connected && NormalizeMac(m) == key {
          assert FirstAlike(connectedOrder, connected, key) == Some(m);
          connected := connected[m := connected[m].(status := Connected)];
          return;
        }
        j := j + 1;
      }
      assert FirstAlike(connectedOrder, connected, key) == None;
    }

    // -------------------------------------------------------------------------
    // The health check

    /** One row of `checkConnectionStatus`, for the dispenser `mac`. */
    method CheckOne(mac: Mac, probe: Prober, probed: bool, allAlive: bool) returns (probed': bool, allAlive': bool)
      modifies this
      ensures Sweep(State(), probed', allAlive') == CheckStep(Sweep(old(State()), probed, allAlive), mac, probe)
    {
      probed', allAlive' := probed, allAlive;
      if mac !in connected || connected[mac].status == Dispensing || connected[mac].ip in dispensingIps {
        return;
      }
      probed' := true;
      ghost var s0 := State();
      var reply, _ := ProbeWithRetry(probe, connected[mac].ip);
      assert reply == ProbeOutcome(probe, s0.connected[mac].ip);
      if reply.Http? && reply.code == 200 && HasMac(reply.body) {
        if NormalizeMac(reply.body.mac.value) == NormalizeMac(mac) {
          assert Classify(reply, mac) == Alive;
          connected := connected[mac := connected[mac].(status := Connected)];
        } else {
          assert Classify(reply, mac) == Mismatch;
          connected := connected - {mac};
          connectedOrder := Drop(connectedOrder, mac);
          allAlive' := false;
        }
      } else {
        assert Classify(reply, mac) == Silent;
        connected := connected[mac := connected[mac].(status := Unresponsive)];
        allAlive' := false;
      }
      assert State() == CheckStep(Sweep(s0, probed, allAlive), mac, probe).st;
    }

    /** The sweep over one more row is one more step. */
    static lemma {:induction false} CheckNext(w: Sweep, macs: seq<Mac>, i: nat, probe: Prober)
      requires i < |macs|
      ensures CheckFold(w, macs[..i + 1], probe) == CheckStep(CheckFold(w, macs[..i], probe), macs[i], probe)
    {
      assert macs[..i + 1][..i] == macs[..i];
    }

    /** `checkConnectionStatus`: the rows of the connected table, then the interval switch. */
    method CheckConnectionStatus(probe: Prober)
      modifies this
      ensures State() == HealthCheck.CheckConnectionStatus(old(State()), probe)
    {
      if checking || inProgress || dispensingIps != {} {
        return;
      }
      checking := true;
      ghost var w0 := Sweep(State(), false, true);
      assert w0 == Sweep(old(State()).(checking := true), false, true);
      var macs := connectedOrder;
      var probed, allAlive := false, true;
      for i := 0 to |macs|
        invariant Sweep(State(), probed, allAlive) == CheckFold(w0, macs[..i], probe)
      {
        ghost var w := Sweep(State(), probed, allAlive);
        CheckNext(w0, macs, i, probe);
        probed, allAlive := CheckOne(macs[i], probe, probed, allAlive);
        assert Sweep(State(), probed, allAlive) == CheckStep(w, macs[i], probe);
      }
      assert macs[..|macs|] == macs;
      ghost var w1 := CheckFold(w0, macs, probe);
      assert State() == w1.st && probed == w1.probed && allAlive == w1.allAlive;
      if probed {
        if allAlive && intervalMs == FastIntervalMs {
          intervalMs := NormalIntervalMs;
        } else if !allAlive && intervalMs == NormalIntervalMs {
          intervalMs := FastIntervalMs;
        }
      }
      checking := false;
      assert State() == w1.st.(intervalMs := intervalMs, checking := false);
    }

    /** The 60-second timer of `startConnectionCheckDelay` fires. */
    method CheckDelayExpired()
      modifies this
      ensures State() == Dispensing.CheckDelayExpired(old(State()))
    {
      if delayArmed {
        inProgress, delayArmed := false, false;
      }
    }

    // -------------------------------------------------------------------------
    // Dispensing

    /** `updateMedicineTransmissionStatus` with `status` for each of `meds`, in order. */
    method MarkEach(ctx: Ctx, meds: seq<Medicine>, status: TxStatus)
      modifies ledger
      ensures ledger.State() == MarkAll(old(ledger.State()), ctx, meds, status)
    {
      ghost var L0 := ledger.State();
      for i := 0 to |meds|
        invariant ledger.State() == MarkAll(L0, ctx, meds[..i], status)
      {
        assert meds[..i + 1][..i] == meds[..i];
        ledger.UpdateMedicineStatus(ctx.receipt, meds[i].pillCode, status, false, ctx.codes, ctx.registered);
      }
      assert meds[..|meds|] == meds;
    }

    /** Phase 1: each request marks the first 연결됨 dispenser with its pill code as dispensing. */
    method PickDevices(order: seq<Mac>, sent: seq<Medicine>) returns (picks: seq<Option<Mac>>)
      modifies this
      ensures (Floor(connected, dispensingIps), picks) == PickUpTo(Floor(old(connected), old(dispensingIps)), order, sent, |sent|)
      ensures State() == old(State()).(connected := connected, dispensingIps := dispensingIps)
    {
      var f := Floor(connected, dispensingIps);
      ghost var f0 := f;
      picks := [];
      for i := 0 to |sent|
        invariant (f, picks) == PickUpTo(f0, order, sent, i)
      {
        ghost var step := PickStep(f, order, sent[i]);
        assert PickUpTo(f0, order, sent, i + 1) == (step.0, picks + [step.1]);
        var x := FirstDevice(order, f.connected, sent[i].pillCode, true);
        if x.Some? {
          var d := f.connected[x.value];
          f := Floor(f.connected[x.value := d.(status := Dispensing)], f.dispensingIps + {d.ip});
        }
        assert (f, x) == step;
        picks := picks + [x];
      }
      connected, dispensingIps := f.connected, f.dispensingIps;
    }

    /** `makeStableRequest` for the `i`-th medicine sent, and whether it settled with status 200. */
    static method Deliver(post: Poster, i: nat) returns (delivered: bool)
      ensures delivered == Delivered(post, i)
    {
      var outcome, _, _ := RetryWithBackoff(post(i), MaxAttempts);
      delivered := outcome.Succeeded? && outcome.value == 200;
    }

    /** The reply to one request: the ledger entry, and the dispenser when the request failed. */
    method RecordReply(ctx: Ctx, m: Medicine, pick: Option<Mac>, delivered: bool, f: Floor) returns (f': Floor)
      requires pick.Some? ==> pick.value in f.connected
      modifies ledger
      ensures f' == SendFloor(f, pick, delivered)
      ensures ledger.State() == SendLedger(old(ledger.State()), ctx, m, pick, delivered)
    {
      f' := f;
      if pick.None? {
        return;
      }
      if delivered {
        var current := StatusOrZero(ledger.medicineStatus, Key(ctx.receipt, m.pillCode));
        ledger.UpdateMedicineStatus(ctx.receipt, m.pillCode, Increment(Some(current)), false, ctx.codes, ctx.registered);
      } else {
        ledger.UpdateMedicineStatus(ctx.receipt, m.pillCode, Count(0), false, ctx.codes, ctx.registered);
        var d := f.connected[pick.value];
        f' := Floor(f.connected[pick.value := d.(status := Disconnected)], f.dispensingIps - {d.ip});
      }
    }

    /** The `n` requests of phase 2, each made with retries: whether each settled with status 200. */
    static method SendRequests(post: Poster, n: nat) returns (oks: seq<bool>)
      ensures oks == Outcomes(post, n)
    {
      oks := [];
      for i := 0 to n
        invariant |oks| == i && forall j :: 0 <= j < i ==> oks[j] == Delivered(post, j)
      {
        var delivered := Deliver(post, i);
        oks := oks + [delivered];
      }
    }

    /** Phase 2: the replies to the requests, recorded in order. */
    method RecordReplies(ctx: Ctx, sent: seq<Medicine>, picks: seq<Option<Mac>>, oks: seq<bool>)
      requires |picks| == |sent| == |oks| && PicksIn(picks, connected)
      modifies this, ledger
      ensures Floor(connected, dispensingIps) == SendFloorUpTo(Floor(old(connected), old(dispensingIps)), picks, oks, |sent|)
      ensures ledger.State() == SendLedgerUpTo(old(ledger.State()), ctx, sent, picks, oks, |sent|)
      ensures State() == old(State()).(connected := connected, dispensingIps := dispensingIps, ledger := ledger.State())
    {
      var f := Floor(connected, dispensingIps);
      ghost var f0 := f;
      ghost var L0 := ledger.State();
      for i := 0 to |sent|
        modifies ledger
        invariant f == SendFloorUpTo(f0, picks, oks, i)
        invariant ledger.State() == SendLedgerUpTo(L0, ctx, sent, picks, oks, i)
      {
        f := RecordReply(ctx, sent[i], picks[i], oks[i], f);
      }
      connected, dispensingIps := f.connected, f.dispensingIps;
    }

    /** One settled result: the dispenser it leaves, and the ledger entry of an undelivered medicine. */
    method SettleOne(ctx: Ctx, order: seq<Mac>, m: Medicine, pick: Option<Mac>, delivered: bool, f: Floor)
      returns (f': Floor)
      requires pick.Some? ==> pick.value in f.connected
      modifies ledger
      ensures f' == SettleFloor(f, order, m, pick, delivered)
      ensures ledger.State() == SettleLedger(old(ledger.State()), ctx, m, pick, delivered)
    {
      if pick.Some? && delivered {
        var x := pick.value;
        var d := f.connected[x];
        f' := Floor(f.connected[x := d.(status := Connected)], f.dispensingIps - {d.ip});
      } else {
        f' := f;
        var x := FirstDevice(order, f.connected, m.pillCode, false);
        if x.Some? {
          f' := f.(dispensingIps := f.dispensingIps - {f.connected[x.value].ip});
        }
        ledger.UpdateMedicineStatus(ctx.receipt, m.pillCode, Count(0), false, ctx.codes, ctx.registered);
      }
    }

    /** Phase 3: the loop over `Promise.allSettled`'s results, in order. */
    method SettleResults(ctx: Ctx, order: seq<Mac>, sent: seq<Medicine>, picks: seq<Option<Mac>>, oks: seq<bool>)
      requires |picks| == |sent| == |oks| && PicksIn(picks, connected)
      modifies this, ledger
      ensures Floor(connected, dispensingIps)
           == SettleFloorUpTo(Floor(old(connected), old(dispensingIps)), order, sent, picks, oks, |sent|)
      ensures ledger.State() == SettleLedgerUpTo(old(ledger.State()), ctx, sent, picks, oks, |sent|)
      ensures State() == old(State()).(connected := connected, dispensingIps := dispensingIps, ledger := ledger.State())
    {
      var f := Floor(connected, dispensingIps);
      ghost var f0 := f;
      ghost var L0 := ledger.State();
      for i := 0 to |sent|
        modifies ledger
        invariant f == SettleFloorUpTo(f0, order, sent, picks, oks, i)
        invariant ledger.State() == SettleLedgerUpTo(L0, ctx, sent, picks, oks, i)
      {
        f := SettleOne(ctx, order, sent[i], picks[i], oks[i], f);
      }
      connected, dispensingIps := f.connected, f.dispensingIps;
    }

    /** The requests for the medicines `sent`: the three phases, in order. */
    method DispatchAll(ctx: Ctx, sent: seq<Medicine>, post: Poster)
      modifies this, ledger
      ensures State() == SendAll(old(State()), ctx, sent, post)
    {
      var order := connectedOrder;
      var picks := PickDevices(order, sent);
      ghost var f1 := Floor(connected, dispensingIps);
      assert PicksIn(picks, connected);
      var oks := SendRequests(post, |sent|);
      RecordReplies(ctx, sent, picks, oks);
      assert Floor(connected, dispensingIps) == SendFloorUpTo(f1, picks, oks, |sent|);
      assert PicksIn(picks, connected);
      SettleResults(ctx, order, sent, picks, oks);
      assert sent[..|sent|] == sent;
    }

    /** The end of a dispense: once no dispenser is dispensing, the health check resumes at the normal interval. */
    method ResumeChecks()
      modifies this
      ensures State() == Finish(old(State()))
    {
      if dispensingIps == {} {
        inProgress, autoInProgress, delayArmed, intervalMs := false, false, false, NormalIntervalMs;
      }
    }

    /** `startDispensing(isAuto)` with the receipt numbers of the selected and the first patient rows. */
    method StartDispensing(isAuto: bool, highlighted: Option<string>, first: Option<string>,
                           boxes: map<string, Box>, post: Poster)
      modifies this, ledger
      ensures State() == Dispensing.StartDispensing(old(State()), isAuto, highlighted, first, boxes, post)
    {
      if isAuto && autoInProgress {
        return;
      }
      var receipt: string;
      if highlighted.Some? {
        receipt := highlighted.value;
      } else if isAuto && first.Some? {
        receipt := first.value;
        if receipt != "" {
          autoInProgress := true;
        }
      } else {
        return;
      }
      StartDispensingInternal(receipt, boxes, isAuto, post);
    }

    /** `startDispensingInternal(receipt, isAuto)`; `boxes` holds the medicine checkboxes. */
    method StartDispensingInternal(receipt: string, boxes: map<string, Box>, isAuto: bool, post: Poster)
      modifies this, ledger
      ensures State() == Dispensing.StartDispensingInternal(old(State()), receipt, boxes, isAuto, post)
    {
      ghost var s0 := State();
      if receipt !in prescriptions || connected == map[] {
        return;
      }
      intervalMs, inProgress, dispensingIps, delayArmed := SlowIntervalMs, true, {}, true;
      assert State() == Begin(s0);
      DispenseSelected(receipt, boxes, isAuto, post);
    }

    /** The part of `startDispensingInternal` after the health check is paused. */
    method DispenseSelected(receipt: string, boxes: map<string, Box>, isAuto: bool, post: Poster)
      requires receipt in prescriptions
      modifies this, ledger
      ensures State() == Dispensing.DispenseSelected(old(State()), receipt, boxes, isAuto, post)
    {
      var selected := Selected(State(), receipt, boxes, isAuto);
      if |selected| == 0 {
        return;
      }
      SendClassified(ContextOf(State(), receipt), selected, post);
    }

    /** The failures recorded (renderer.js:2047-2097), then the requests for the rest. */
    method SendClassified(ctx: Ctx, selected: seq<Medicine>, post: Poster)
      modifies this, ledger
      ensures State() == Dispensing.SendClassified(old(State()), ctx, selected, post)
    {
      var s1 := State();
      MarkEach(ctx, OfClass(s1, selected, NotRegistered), Label(Unregistered));
      MarkEach(ctx, OfClass(s1, selected, OverLimit), Count(0));
      MarkEach(ctx, OfClass(s1, selected, NotConnected), Label(FailedLabel));
      assert State() == s1.(ledger := MarkFailures(s1.ledger, ctx, s1, selected));
      var sent := OfClass(s1, selected, Sendable);
      if |sent| == 0 {
        return;
      }
      DispatchAll(ctx, sent, post);
      ResumeChecks();
    }
  }

  /**
   * After a dispense that sends nothing, the pause's timer lets the health
   * check run again, but at the 60-second interval: the sweep switches only
   * between 5 and 15 seconds, so the slow interval stays.
   */
  lemma {:induction false} NothingSentStaysSlow(s: FleetState, receipt: string, boxes: map<string, Box>, isAuto: bool, post: Poster,
                             probe: Prober)
    requires receipt in s.prescriptions && s.connected != map[] && !s.checking
    requires |Sent(s, receipt, boxes, isAuto)| == 0
    ensures var r := CheckDelayExpired(StartDispensingInternal(s, receipt, boxes, isAuto, post));
      !r.inProgress && r.dispensingIps == {} && !r.checking
      && HealthCheck.CheckConnectionStatus(r, probe).intervalMs == SlowIntervalMs
  {
    NothingSentKeepsPause(s, receipt, boxes, isAuto, post);
  }
}
