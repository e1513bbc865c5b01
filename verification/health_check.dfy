/**
 * The periodic health check of the connected dispensers
 * (`checkConnectionStatus`, renderer.js:2410-2553). The replies are an
 * input: `probe(ip, k)` is what the `k`-th GET of `ip` in this sweep returns.
 */
module HealthCheck {
  import opened Wrappers
  import opened Ordered
  import opened Devices
  import opened Retry
  import opened Fleet

  type Prober = (Ip, nat) -> Reply

  /** The reply the sweep acts on: a second GET only when the first one timed out. */
  function ProbeOutcome(probe: Prober, ip: Ip): Reply
  {
    var first := probe(ip, 0);
    if first.Fault? && IsTimeout(first.err) then probe(ip, 1) else first
  }

  /** The retry loop around the GET (renderer.js:2451-2469). */
  method ProbeWithRetry(probe: Prober, ip: Ip) returns (reply: Reply, probes: nat)
    ensures reply == ProbeOutcome(probe, ip)
    ensures 1 <= probes <= 2
    ensures probes == 2 <==> probe(ip, 0).Fault? && IsTimeout(probe(ip, 0).err)
    ensures reply == probe(ip, probes - 1)
  {
    reply := Fault(NetError("", ""));
    probes := 0;
    for retry := 0 to 2
      invariant probes == retry
      invariant retry == 1 ==> reply == probe(ip, 0) && reply.Fault? && IsTimeout(reply.err)
      invariant retry == 2 ==> reply == probe(ip, 1) && probe(ip, 0).Fault? && IsTimeout(probe(ip, 0).err)
    {
      reply := probe(ip, retry);
      probes := probes + 1;
      if reply.Http? || !(retry < 1 && IsTimeout(reply.err)) {
        break;
      }
    }
  }

  /** What a reply says about the dispenser expected at its address. */
  datatype Verdict = Alive | Mismatch | Silent

  function Classify(reply: Reply, mac: Mac): (v: Verdict)
    ensures v == Alive <==> MacMatches(reply, mac)
    ensures v == Mismatch <==> reply.Http? && reply.code == 200 && HasMac(reply.body) && !MacMatches(reply, mac)
    ensures v == Silent <==> !(reply.Http? && reply.code == 200 && HasMac(reply.body))
  {
    if reply.Http? && reply.code == 200 && HasMac(reply.body) then
      if MacMatches(reply, mac) then Alive else Mismatch
    else Silent
  }

  /** The health check and the connect step accept exactly the same replies. */
  lemma {:induction false} CheckAgreesWithConnect(s: FleetState, mac: Mac, probe: Ip -> Reply)
    requires mac in s.saved
    ensures ConnectByMac(s, mac, probe).1 <==> Classify(probe(s.saved[mac].ip), mac) == Alive
  {
  }

  /** A dispenser the sweep probes: neither dispensing nor at an address that is. */
  predicate Eligible(s: FleetState, m: Mac)
  {
    m in s.connected && s.connected[m].status != Dispensing && s.connected[m].ip !in s.dispensingIps
  }

  /** The entry the sweep leaves for `m`; `None` when it is removed. */
  function Checked(s: FleetState, m: Mac, probe: Prober): Option<ConnectedDevice>
    requires m in s.connected
  {
    if !Eligible(s, m) then Some(s.connected[m])
    else match Classify(ProbeOutcome(probe, s.connected[m].ip), m)
      case Alive => Some(s.connected[m].(status := Connected))
      case Mismatch => None
      case Silent => Some(s.connected[m].(status := Unresponsive))
  }

  /** The state during the sweep, with `hasConnectedDevices` and `allConnected`. */
  datatype Sweep = Sweep(st: FleetState, probed: bool, allAlive: bool)

  /** One row of the sweep, for the dispenser `mac`. */
  function CheckStep(w: Sweep, mac: Mac, probe: Prober): (r: Sweep)
    ensures r.st == w.st.(connected := r.st.connected, connectedOrder := r.st.connectedOrder)
    ensures Enumerates(w.st.connectedOrder, w.st.connected.Keys) ==>
      Enumerates(r.st.connectedOrder, r.st.connected.Keys)
    ensures r.st.connected.Keys <= w.st.connected.Keys
    ensures forall m :: m != mac && m in w.st.connected ==> m in r.st.connected && r.st.connected[m] == w.st.connected[m]
    ensures mac in w.st.connected ==>
      (mac in r.st.connected <==> Checked(w.st, mac, probe).Some?)
      && (mac in r.st.connected ==> r.st.connected[mac] == Checked(w.st, mac, probe).value)
  {
    if !Eligible(w.st, mac) then w
    else
      var v := Classify(ProbeOutcome(probe, w.st.connected[mac].ip), mac);
      match Checked(w.st, mac, probe)
      case Some(d) => Sweep(w.st.(connected := w.st.connected[mac := d]), true, w.allAlive && v == Alive)
      case None =>
        Sweep(w.st.(connected := w.st.connected - {mac}, connectedOrder := Drop(w.st.connectedOrder, mac)), true, false)
  }

  /** A row sets `hasConnectedDevices` when it probes, and clears `allConnected` unless the reply carries the row's MAC. */
  lemma {:induction false} StepFlags(w: Sweep, mac: Mac, probe: Prober)
    ensures var r := CheckStep(w, mac, probe);
      r.probed == (w.probed || Eligible(w.st, mac))
      && r.allAlive ==
         (w.allAlive && (Eligible(w.st, mac) ==> Classify(ProbeOutcome(probe, w.st.connected[mac].ip), mac) == Alive))
  {
  }

  /** The rows `macs`, in order. */
  function CheckFold(w: Sweep, macs: seq<Mac>, probe: Prober): (r: Sweep)
    ensures r.st == w.st.(connected := r.st.connected, connectedOrder := r.st.connectedOrder)
    ensures Enumerates(w.st.connectedOrder, w.st.connected.Keys) ==>
      Enumerates(r.st.connectedOrder, r.st.connected.Keys)
    ensures r.st.connected.Keys <= w.st.connected.Keys
    ensures forall m :: m !in macs && m in w.st.connected ==> m in r.st.connected && r.st.connected[m] == w.st.connected[m]
  {
    if |macs| == 0 then w
    else CheckStep(CheckFold(w, macs[..|macs| - 1], probe), macs[|macs| - 1], probe)
  }

  /** `checkConnectionStatus`: skipped while busy; otherwise one sweep, then the interval switch. */
  function CheckConnectionStatus(s: FleetState, probe: Prober): (r: FleetState)
    ensures s.checking || s.inProgress || s.dispensingIps != {} ==> r == s
    ensures Valid(s) ==> Valid(r)
    ensures r == s.(connected := r.connected, connectedOrder := r.connectedOrder, intervalMs := r.intervalMs,
                    checking := r.checking)
    ensures r.connected.Keys <= s.connected.Keys
    ensures r.checking == s.checking
    ensures r.intervalMs in {s.intervalMs, FastIntervalMs, NormalIntervalMs}
  {
    if s.checking || s.inProgress || s.dispensingIps != {} then s
    else
      var w := CheckFold(Sweep(s.(checking := true), false, true), s.connectedOrder, probe);
      var interval :=
        if w.probed && w.allAlive && s.intervalMs == FastIntervalMs then NormalIntervalMs
        else if w.probed && !w.allAlive && s.intervalMs == NormalIntervalMs then FastIntervalMs
        else s.intervalMs;
      w.st.(intervalMs := interval, checking := false)
  }

  /** The entry a row leaves is final: later rows touch other dispensers only. */
  lemma {:induction false} FoldOutcome(w: Sweep, macs: seq<Mac>, probe: Prober, m: Mac)
    requires NoDup(macs) && m in macs && m in w.st.connected
    ensures var r := CheckFold(w, macs, probe);
      (m in r.st.connected <==> Checked(w.st, m, probe).Some?)
      && (m in r.st.connected ==> r.st.connected[m] == Checked(w.st, m, probe).value)
  {
    var init := macs[..|macs| - 1];
    var last := macs[|macs| - 1];
    var t := CheckFold(w, init, probe);
    if last == m {
      assert m !in init;
    } else {
      assert m in init;
      assert NoDup(init);
      FoldOutcome(w, init, probe, m);
    }
  }

  /** The flags after the rows `macs`: some row was probed, and every probed row answered with its MAC. */
  lemma {:induction false} FoldFlags(w: Sweep, macs: seq<Mac>, probe: Prober)
    requires NoDup(macs) && forall m :: m in macs ==> m in w.st.connected
    ensures CheckFold(w, macs, probe).probed == (w.probed || exists m :: m in macs && Eligible(w.st, m))
    ensures CheckFold(w, macs, probe).allAlive ==
      (w.allAlive && forall m :: m in macs && Eligible(w.st, m) ==>
                                   Classify(ProbeOutcome(probe, w.st.connected[m].ip), m) == Alive)
  {
    if |macs| > 0 {
      var init := macs[..|macs| - 1];
      var last := macs[|macs| - 1];
      assert forall m :: m in macs <==> m in init || m == last;
      assert NoDup(init) && last !in init;
      FoldFlags(w, init, probe);
      var t := CheckFold(w, init, probe);
      assert t.st.connected[last] == w.st.connected[last];
      assert Eligible(t.st, last) == Eligible(w.st, last);
      StepFlags(t, last, probe);
    }
  }

  /**
   * The fate of each connected dispenser: one dispensing, or at a dispensing
   * address, is untouched; otherwise it becomes 연결됨 when its reply carries
   * its MAC, is removed when the reply carries another MAC, and becomes
   * 일시적 응답 없음 on any other reply or error.
   */
  lemma {:induction false} CheckOutcome(s: FleetState, probe: Prober, m: Mac)
    requires Valid(s) && !s.checking && !s.inProgress && s.dispensingIps == {}
    requires m in s.connected
    ensures var r := CheckConnectionStatus(s, probe);
      var reply := ProbeOutcome(probe, s.connected[m].ip);
      (s.connected[m].status == Dispensing ==> m in r.connected && r.connected[m] == s.connected[m])
      && (s.connected[m].status != Dispensing ==>
            (Classify(reply, m) == Alive ==> m in r.connected && r.connected[m] == s.connected[m].(status := Connected))
            && (Classify(reply, m) == Mismatch ==> m !in r.connected)
            && (Classify(reply, m) == Silent ==>
                  m in r.connected && r.connected[m] == s.connected[m].(status := Unresponsive)))
  {
    var w := Sweep(s.(checking := true), false, true);
    FoldOutcome(w, s.connectedOrder, probe, m);
  }

  /**
   * The interval switch: from 5 s to 15 s when every probed dispenser
   * answered with its MAC, from 15 s to 5 s when one did not; unchanged when
   * no dispenser was probed or the interval is neither.
   */
  lemma {:induction false} CheckInterval(s: FleetState, probe: Prober)
    requires Valid(s) && !s.checking && !s.inProgress && s.dispensingIps == {}
    ensures var r := CheckConnectionStatus(s, probe);
      var probed := exists m :: m in s.connected && Eligible(s, m);
      var allAlive := forall m :: m in s.connected && Eligible(s, m) ==>
                                    Classify(ProbeOutcome(probe, s.connected[m].ip), m) == Alive;
      r.intervalMs == if probed && allAlive && s.intervalMs == FastIntervalMs then NormalIntervalMs
                      else if probed && !allAlive && s.intervalMs == NormalIntervalMs then FastIntervalMs
                      else s.intervalMs
  {
    var w := Sweep(s.(checking := true), false, true);
    FoldFlags(w, s.connectedOrder, probe);
  }
}
