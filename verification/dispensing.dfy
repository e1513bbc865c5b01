/**
 * The dispense coordinator (`startDispensingInternal`, renderer.js:1992-2221).
 * The selected medicines of a prescription are classified, the failures are
 * recorded, and each sendable medicine is sent to the first connected
 * dispenser carrying its pill code. The requests run concurrently in the
 * source; here they run in three phases, in list order: every request's
 * synchronous start, then the replies, then the settle loop. Within a phase
 * the dispensers and the transmission ledger change independently of each
 * other, so each phase is written as two folds, one over the dispensers and
 * one over the ledger.
 */
module Dispensing {
  import opened Wrappers
  import opened Ordered
  import opened Devices
  import opened Retry
  import opened Transmission
  import opened Pm3000
  import opened Fleet

  /** `post(i)(k)`: attempt `k` of the POST for the `i`-th medicine sent, as a status code or an error. */
  type Poster = nat -> nat -> Attempt<int>

  /**
   * What a status update reads: the receipt, the pill codes of its parsed
   * prescription and the registered pill codes.
   */
  datatype Ctx = Ctx(receipt: string, codes: Option<seq<string>>, registered: set<string>)

  function PillCodes(meds: seq<Medicine>): (r: seq<string>)
    ensures |r| == |meds| && forall i :: 0 <= i < |meds| ==> r[i] == meds[i].pillCode
  {
    seq(|meds|, i requires 0 <= i < |meds| => meds[i].pillCode)
  }

  /** The context of a dispense for `receipt`. */
  function ContextOf(s: FleetState, receipt: string): Ctx
  {
    Ctx(receipt, if receipt in s.prescriptions then Some(PillCodes(s.prescriptions[receipt].medicines)) else None,
        RegisteredCodes(s))
  }

  /** `updateMedicineTransmissionStatus(receipt, code, status)`, unforced. */
  function Mark(L: LedgerState, ctx: Ctx, code: string, status: TxStatus): LedgerState
  {
    MedicineUpdate(L, ctx.receipt, code, status, false, ctx.codes, ctx.registered)
  }

  /** Whether `k` is the ledger key of none of `meds`. */
  predicate Untouched(k: string, ctx: Ctx, meds: seq<Medicine>)
  {
    forall m :: m in meds ==> k != Key(ctx.receipt, m.pillCode)
  }

  /**
   * The status of every medicine of `meds` set to `status`, one after the
   * other; a 0 leaves a success in place.
   */
  function MarkAll(L: LedgerState, ctx: Ctx, meds: seq<Medicine>, status: TxStatus): (r: LedgerState)
    ensures forall m :: m in meds ==>
      var k := Key(ctx.receipt, m.pillCode);
      k in r.medicine
      && (r.medicine[k] == status
          || (status == Count(0) && IsSuccess(Lookup(L.medicine, k)) && Lookup(r.medicine, k) == Lookup(L.medicine, k)))
    ensures forall k :: Untouched(k, ctx, meds) ==> Lookup(r.medicine, k) == Lookup(L.medicine, k)
  {
    if |meds| == 0 then L
    else
      var t := MarkAll(L, ctx, meds[..|meds| - 1], status);
      assert forall m :: m in meds <==> m in meds[..|meds| - 1] || m == meds[|meds| - 1];
      Mark(t, ctx, meds[|meds| - 1].pillCode, status)
  }

  /**
   * `Object.values(connectedDevices).find(...)`: the first connected
   * dispenser, in insertion order, with the pill code (and, when
   * `connectedOnly`, the status 연결됨).
   */
  function FirstDevice(order: seq<Mac>, c: map<Mac, ConnectedDevice>, code: string, connectedOnly: bool)
    : (r: Option<Mac>)
    ensures r.Some? ==>
      r.value in order && r.value in c && c[r.value].pillCode == code
      && (connectedOnly ==> c[r.value].status == Connected)
    ensures r.None? ==>
      forall m :: m in order && m in c && c[m].pillCode == code ==> connectedOnly && c[m].status != Connected
  {
    if |order| == 0 then None
    else
      var m := order[0];
      if m in c && c[m].pillCode == code && (!connectedOnly || c[m].status == Connected) then Some(m)
      else
        assert forall x :: x in order ==> x == m || x in order[1..];
        FirstDevice(order[1..], c, code, connectedOnly)
  }

  // ---------------------------------------------------------------------------
  // Selection and classification (renderer.js:2014-2097)

  /** A medicine checkbox on the page: whether it is ticked, and whether it is disabled. */
  datatype Box = Box(checked: bool, disabled: bool)

  /**
   * The checkboxes as the prescription's detail view renders them: one per
   * pill code, ticked exactly when the medicine is registered at that moment
   * and disabled otherwise. Neither attribute follows later registry changes.
   */
  function Rendered(s: FleetState, medicines: seq<Medicine>): (r: map<string, Box>)
    ensures forall c :: c in r <==> exists m :: m in medicines && m.pillCode == c
    ensures forall c :: c in r ==> r[c].checked == IsRegistered(s, c) && r[c].disabled == !IsRegistered(s, c)
  {
    map c | c in (set m | m in medicines :: m.pillCode) :: Box(IsRegistered(s, c), !IsRegistered(s, c))
  }

  /**
   * The pill codes whose checkbox is ticked. `boxes` maps the pill code of
   * each checkbox on the page (the first with that code) to its state; in
   * automatic mode every checkbox that is not disabled is ticked first.
   */
  function Ticked(boxes: map<string, Box>, isAuto: bool): (r: set<string>)
    ensures forall c :: c in r <==> c in boxes && (boxes[c].checked || (isAuto && !boxes[c].disabled))
  {
    set c | c in boxes && (boxes[c].checked || (isAuto && !boxes[c].disabled))
  }

  /**
   * Boxes left as rendered tick, in either mode, exactly the codes that were
   * registered when the view was rendered (`s0`), whatever the registry holds
   * by the time dispensing starts.
   */
  lemma {:induction false} RenderedTicksRegistered(s0: FleetState, medicines: seq<Medicine>, isAuto: bool)
    ensures forall c :: c in Ticked(Rendered(s0, medicines), isAuto) <==>
      (exists m :: m in medicines && m.pillCode == c) && IsRegistered(s0, c)
  {
    var boxes := Rendered(s0, medicines);
    forall c
      ensures c in Ticked(boxes, isAuto) <==> (exists m :: m in medicines && m.pillCode == c) && IsRegistered(s0, c)
    {
      if c in boxes {
        assert boxes[c] == Box(IsRegistered(s0, c), !IsRegistered(s0, c));
      }
    }
  }

  function Selected(s: FleetState, receipt: string, boxes: map<string, Box>, isAuto: bool): (r: seq<Medicine>)
    requires receipt in s.prescriptions
    ensures forall m :: m in r <==> m in s.prescriptions[receipt].medicines && m.pillCode in Ticked(boxes, isAuto)
  {
    var ticked := Ticked(boxes, isAuto);
    Filter(s.prescriptions[receipt].medicines, (m: Medicine) => m.pillCode in ticked)
  }

  /** Where a selected medicine goes; `NoTotal` is a `NaN` total, which neither comparison accepts. */
  datatype MedicineClass = NotRegistered | OverLimit | NotConnected | Sendable | NoTotal

  function ClassOf(s: FleetState, m: Medicine): MedicineClass
  {
    if !IsRegistered(s, m.pillCode) then NotRegistered
    else if m.total.None? then NoTotal
    else if m.total.value > s.maxSyrup then OverLimit
    else if FirstDevice(s.connectedOrder, s.connected, m.pillCode, true).None? then NotConnected
    else Sendable
  }

  function IsOfClass(s: FleetState, c: MedicineClass): Medicine -> bool
  {
    (m: Medicine) => ClassOf(s, m) == c
  }

  /** The selected medicines of class `c`, in prescription order. */
  function OfClass(s: FleetState, selected: seq<Medicine>, c: MedicineClass): (r: seq<Medicine>)
    ensures forall m :: m in r <==> m in selected && ClassOf(s, m) == c
  {
    Filter(selected, IsOfClass(s, c))
  }

  // The tests of the source's successive filters.
  function KeepRegistered(s: FleetState): Medicine -> bool
  {
    (m: Medicine) => IsRegistered(s, m.pillCode)
  }
  function KeepUnregistered(s: FleetState): Medicine -> bool
  {
    (m: Medicine) => !IsRegistered(s, m.pillCode)
  }
  function KeepOverLimit(s: FleetState): Medicine -> bool
  {
    (m: Medicine) => m.total.Some? && m.total.value > s.maxSyrup
  }
  function KeepWithinLimit(s: FleetState): Medicine -> bool
  {
    (m: Medicine) => m.total.Some? && m.total.value <= s.maxSyrup
  }
  function KeepConnected(s: FleetState): Medicine -> bool
  {
    (m: Medicine) => FirstDevice(s.connectedOrder, s.connected, m.pillCode, true).Some?
  }
  function KeepNotConnected(s: FleetState): Medicine -> bool
  {
    (m: Medicine) => FirstDevice(s.connectedOrder, s.connected, m.pillCode, true).None?
  }

  /**
   * The lists the source builds by filtering the selection, then the
   * registered medicines, then the valid ones, are the classes of `ClassOf`.
   */
  lemma {:induction false} SourceFilters(s: FleetState, selected: seq<Medicine>)
    ensures Filter(selected, KeepUnregistered(s)) == OfClass(s, selected, NotRegistered)
    ensures Filter(Filter(selected, KeepRegistered(s)), KeepOverLimit(s)) == OfClass(s, selected, OverLimit)
    ensures Filter(Filter(Filter(selected, KeepRegistered(s)), KeepWithinLimit(s)), KeepNotConnected(s))
            == OfClass(s, selected, NotConnected)
    ensures Filter(Filter(Filter(selected, KeepRegistered(s)), KeepWithinLimit(s)), KeepConnected(s))
            == OfClass(s, selected, Sendable)
  {
    UnregisteredFilter(s, selected);
    OverLimitFilter(s, selected);
    ValidFilter(s, selected);
    ConnectedFilters(s, selected);
  }

  lemma {:induction false} UnregisteredFilter(s: FleetState, selected: seq<Medicine>)
    ensures Filter(selected, KeepUnregistered(s)) == OfClass(s, selected, NotRegistered)
  {
    forall m ensures KeepUnregistered(s)(m) == IsOfClass(s, NotRegistered)(m) {
      assert KeepUnregistered(s)(m) == !IsRegistered(s, m.pillCode);
    }
    FilterExt(selected, KeepUnregistered(s), IsOfClass(s, NotRegistered));
    assert OfClass(s, selected, NotRegistered) == Filter(selected, IsOfClass(s, NotRegistered));
  }

  lemma {:induction false} OverLimitFilter(s: FleetState, selected: seq<Medicine>)
    ensures Filter(Filter(selected, KeepRegistered(s)), KeepOverLimit(s)) == OfClass(s, selected, OverLimit)
  {
    forall m ensures IsOfClass(s, OverLimit)(m) == (KeepRegistered(s)(m) && KeepOverLimit(s)(m)) {
    }
    FilterTwice(selected, KeepRegistered(s), KeepOverLimit(s), IsOfClass(s, OverLimit));
    assert OfClass(s, selected, OverLimit) == Filter(selected, IsOfClass(s, OverLimit));
  }

  /** The registered medicines with a numeric total within the limit. */
  function KeepValid(s: FleetState): Medicine -> bool
  {
    (m: Medicine) => IsRegistered(s, m.pillCode) && m.total.Some? && m.total.value <= s.maxSyrup
  }

  lemma {:induction false} ValidFilter(s: FleetState, selected: seq<Medicine>)
    ensures Filter(Filter(selected, KeepRegistered(s)), KeepWithinLimit(s)) == Filter(selected, KeepValid(s))
  {
    forall m ensures KeepValid(s)(m) == (KeepRegistered(s)(m) && KeepWithinLimit(s)(m)) {
    }
    FilterTwice(selected, KeepRegistered(s), KeepWithinLimit(s), KeepValid(s));
  }

  lemma {:induction false} ConnectedFilters(s: FleetState, selected: seq<Medicine>)
    ensures Filter(Filter(selected, KeepValid(s)), KeepNotConnected(s)) == OfClass(s, selected, NotConnected)
    ensures Filter(Filter(selected, KeepValid(s)), KeepConnected(s)) == OfClass(s, selected, Sendable)
  {
    forall m ensures IsOfClass(s, NotConnected)(m) == (KeepValid(s)(m) && KeepNotConnected(s)(m)) {
    }
    FilterTwice(selected, KeepValid(s), KeepNotConnected(s), IsOfClass(s, NotConnected));
    assert OfClass(s, selected, NotConnected) == Filter(selected, IsOfClass(s, NotConnected));
    forall m ensures IsOfClass(s, Sendable)(m) == (KeepValid(s)(m) && KeepConnected(s)(m)) {
    }
    FilterTwice(selected, KeepValid(s), KeepConnected(s), IsOfClass(s, Sendable));
    assert OfClass(s, selected, Sendable) == Filter(selected, IsOfClass(s, Sendable));
  }

  /** Each selected medicine with a numeric total is in exactly one of the four lists; one without is in none. */
  lemma {:induction false} Partition(s: FleetState, selected: seq<Medicine>, m: Medicine)
    requires m in selected
    ensures m.total.None? && IsRegistered(s, m.pillCode) ==>
      m !in OfClass(s, selected, NotRegistered) && m !in OfClass(s, selected, OverLimit)
      && m !in OfClass(s, selected, NotConnected) && m !in OfClass(s, selected, Sendable)
    ensures m.total.Some? || !IsRegistered(s, m.pillCode) ==>
      (if m in OfClass(s, selected, NotRegistered) then 1 else 0)
      + (if m in OfClass(s, selected, OverLimit) then 1 else 0)
      + (if m in OfClass(s, selected, NotConnected) then 1 else 0)
      + (if m in OfClass(s, selected, Sendable) then 1 else 0) == 1
  {
  }

  // ---------------------------------------------------------------------------
  // The dispensers during a dispense

  /** The connected dispensers and the addresses of those dispensing. */
  datatype Floor = Floor(connected: map<Mac, ConnectedDevice>, dispensingIps: set<Ip>)

  /** Only statuses change: every connected dispenser keeps its address, nickname and pill code. */
  predicate SameDevices(c: map<Mac, ConnectedDevice>, c2: map<Mac, ConnectedDevice>)
  {
    c2.Keys == c.Keys
    && forall x :: x in c ==> c2[x].ip == c[x].ip && c2[x].nickname == c[x].nickname && c2[x].pillCode == c[x].pillCode
  }

  predicate PicksIn(picks: seq<Option<Mac>>, c: map<Mac, ConnectedDevice>)
  {
    forall i :: 0 <= i < |picks| && picks[i].Some? ==> picks[i].value in c
  }

  predicate Distinct(picks: seq<Option<Mac>>)
  {
    forall i, j :: 0 <= i < j < |picks| && picks[j].Some? ==> picks[i] != picks[j]
  }

  /** Whether some of the first `n` requests picked `x`. */
  predicate PickedAmong(picks: seq<Option<Mac>>, x: Mac, n: nat)
    requires n <= |picks|
  {
    exists i :: 0 <= i < n && picks[i] == Some(x)
  }

  /** `makeStableRequest` for the `i`-th medicine settles with status 200. */
  predicate Delivered(post: Poster, i: nat)
  {
    var run := Retry.Retry(post(i), MaxAttempts);
    run.outcome.Succeeded? && run.outcome.value == 200
  }

  /** The addresses of the first `n` picked dispensers. */
  function PickedIps(c: map<Mac, ConnectedDevice>, picks: seq<Option<Mac>>, n: nat): set<Ip>
    requires n <= |picks|
  {
    if n == 0 then {}
    else
      PickedIps(c, picks, n - 1)
      + (if picks[n - 1].Some? && picks[n - 1].value in c then {c[picks[n - 1].value].ip} else {})
  }

  /** The addresses of the first `n` picked dispensers whose request ended as `delivered` says. */
  function IpsWhere(c: map<Mac, ConnectedDevice>, picks: seq<Option<Mac>>, ok: seq<bool>, delivered: bool, n: nat)
    : set<Ip>
    requires n <= |picks| == |ok|
  {
    if n == 0 then {}
    else
      IpsWhere(c, picks, ok, delivered, n - 1)
      + (if picks[n - 1].Some? && picks[n - 1].value in c && ok[n - 1] == delivered
         then {c[picks[n - 1].value].ip} else {})
  }

  /** The picked addresses are those of the delivered requests and those of the failed ones. */
  lemma {:induction false} PickedIpsSplit(c: map<Mac, ConnectedDevice>, picks: seq<Option<Mac>>, ok: seq<bool>, n: nat)
    requires n <= |picks| == |ok|
    ensures PickedIps(c, picks, n) == IpsWhere(c, picks, ok, true, n) + IpsWhere(c, picks, ok, false, n)
  {
    if n > 0 {
      PickedIpsSplit(c, picks, ok, n - 1);
    }
  }

  /** The addresses depend only on the dispensers' addresses, not on their statuses. */
  lemma {:induction false} IpsWhereSame(c: map<Mac, ConnectedDevice>, c2: map<Mac, ConnectedDevice>,
                                        picks: seq<Option<Mac>>, ok: seq<bool>, delivered: bool, n: nat)
    requires n <= |picks| == |ok| && SameDevices(c, c2)
    ensures IpsWhere(c, picks, ok, delivered, n) == IpsWhere(c2, picks, ok, delivered, n)
  {
    if n > 0 {
      IpsWhereSame(c, c2, picks, ok, delivered, n - 1);
      if picks[n - 1].Some? && picks[n - 1].value in c {
        assert c2[picks[n - 1].value].ip == c[picks[n - 1].value].ip;
      }
    }
  }

  lemma {:induction false} PickedIpsPrefix(c: map<Mac, ConnectedDevice>, a: seq<Option<Mac>>, b: seq<Option<Mac>>, n: nat)
    requires n <= |a| && n <= |b| && forall i :: 0 <= i < n ==> a[i] == b[i]
    ensures PickedIps(c, a, n) == PickedIps(c, b, n)
  {
    if n > 0 {
      PickedIpsPrefix(c, a, b, n - 1);
    }
  }

  // ---------------------------------------------------------------------------
  // Phase 1: each request starts (renderer.js:2107-2120)

  /** Mark the first 연결됨 dispenser with the pill code as dispensing; `None` is the request that throws. */
  function PickStep(f: Floor, order: seq<Mac>, m: Medicine): (r: (Floor, Option<Mac>))
    ensures SameDevices(f.connected, r.0.connected)
    ensures r.1.None? ==> r.0 == f
    ensures r.1.Some? ==>
      var x := r.1.value;
      x in f.connected && f.connected[x].status == Connected && f.connected[x].pillCode == m.pillCode
      && r.0.connected == f.connected[x := f.connected[x].(status := Dispensing)]
      && r.0.dispensingIps == f.dispensingIps + {f.connected[x].ip}
  {
    match FirstDevice(order, f.connected, m.pillCode, true)
    case None => (f, None)
    case Some(x) =>
      (Floor(f.connected[x := f.connected[x].(status := Dispensing)], f.dispensingIps + {f.connected[x].ip}), Some(x))
  }

  /** The requests for the first `n` medicines start, in order; the second component lists the picks. */
  function PickUpTo(f: Floor, order: seq<Mac>, meds: seq<Medicine>, n: nat): (r: (Floor, seq<Option<Mac>>))
    requires n <= |meds|
    ensures |r.1| == n
    ensures SameDevices(f.connected, r.0.connected)
    ensures PicksIn(r.1, f.connected)
  {
    if n == 0 then (f, [])
    else
      var t := PickUpTo(f, order, meds, n - 1);
      var p := PickStep(t.0, order, meds[n - 1]);
      (p.0, t.1 + [p.1])
  }

  /**
   * Each request that found a dispenser picked one that was 연결됨 with the
   * medicine's pill code and is now dispensing.
   */
  lemma {:induction false} PickStatuses(f: Floor, order: seq<Mac>, meds: seq<Medicine>, n: nat)
    requires n <= |meds|
    ensures var r := PickUpTo(f, order, meds, n);
      forall i :: 0 <= i < n && r.1[i].Some? ==>
        f.connected[r.1[i].value].status == Connected
        && f.connected[r.1[i].value].pillCode == meds[i].pillCode
        && r.0.connected[r.1[i].value].status == Dispensing
  {
    if n > 0 {
      PickStatuses(f, order, meds, n - 1);
      PickLast(f, order, meds, n);
      var t := PickUpTo(f, order, meds, n - 1);
      var p := PickStep(t.0, order, meds[n - 1]);
      var r := PickUpTo(f, order, meds, n);
      assert r.1 == t.1 + [p.1];
      forall i | 0 <= i < n - 1 && r.1[i].Some?
        ensures r.0.connected[r.1[i].value].status == Dispensing
      {
        assert r.1[i] == t.1[i];
        assert t.0.connected[r.1[i].value].status == Dispensing;
      }
    }
  }

  /** The last request's pick, when it found a dispenser. */
  lemma {:induction false} PickLast(f: Floor, order: seq<Mac>, meds: seq<Medicine>, n: nat)
    requires 0 < n <= |meds|
    ensures var r := PickUpTo(f, order, meds, n);
      r.1[n - 1].Some? ==>
        f.connected[r.1[n - 1].value].status == Connected
        && f.connected[r.1[n - 1].value].pillCode == meds[n - 1].pillCode
        && r.0.connected[r.1[n - 1].value].status == Dispensing
  {
    PickKeepsIdle(f, order, meds, n - 1);
  }

  /** A dispenser that is not dispensing after the first phase was not touched by it. */
  lemma {:induction false} PickKeepsIdle(f: Floor, order: seq<Mac>, meds: seq<Medicine>, n: nat)
    requires n <= |meds|
    ensures var r := PickUpTo(f, order, meds, n);
      forall x :: x in f.connected && r.0.connected[x].status != Dispensing ==> r.0.connected[x] == f.connected[x]
  {
    if n > 0 {
      PickKeepsIdle(f, order, meds, n - 1);
      var t := PickUpTo(f, order, meds, n - 1);
      var p := PickStep(t.0, order, meds[n - 1]);
      assert PickUpTo(f, order, meds, n).0 == p.0;
      forall x | x in f.connected && p.0.connected[x].status != Dispensing
        ensures p.0.connected[x] == f.connected[x]
      {
        assert x in t.0.connected;
        assert p.1 != Some(x);
      }
    }
  }

  /** No dispenser is picked twice. */
  lemma {:induction false} PickDistinct(f: Floor, order: seq<Mac>, meds: seq<Medicine>, n: nat)
    requires n <= |meds|
    ensures Distinct(PickUpTo(f, order, meds, n).1)
  {
    if n > 0 {
      PickDistinct(f, order, meds, n - 1);
      PickStatuses(f, order, meds, n - 1);
      var t := PickUpTo(f, order, meds, n - 1);
      var p := PickStep(t.0, order, meds[n - 1]);
      var r := PickUpTo(f, order, meds, n);
      assert r.1 == t.1 + [p.1];
      forall i, j | 0 <= i < j < n && r.1[j].Some?
        ensures r.1[i] != r.1[j]
      {
        assert r.1[i] == t.1[i];
      }
    }
  }

  /** A dispenser no request picked keeps its entry. */
  lemma {:induction false} PickUntouched(f: Floor, order: seq<Mac>, meds: seq<Medicine>, n: nat)
    requires n <= |meds|
    ensures var r := PickUpTo(f, order, meds, n);
      forall x :: x in f.connected && !PickedAmong(r.1, x, n) ==> r.0.connected[x] == f.connected[x]
  {
    if n > 0 {
      PickUntouched(f, order, meds, n - 1);
      var t := PickUpTo(f, order, meds, n - 1);
      var p := PickStep(t.0, order, meds[n - 1]);
      var r := PickUpTo(f, order, meds, n);
      assert r.1 == t.1 + [p.1];
      forall x | x in f.connected && !PickedAmong(r.1, x, n)
        ensures r.0.connected[x] == f.connected[x]
      {
        forall i | 0 <= i < n - 1
          ensures t.1[i] != Some(x)
        {
          assert r.1[i] == t.1[i];
        }
        assert r.1[n - 1] == p.1;
        assert x in t.0.connected && p.1 != Some(x);
        assert p.0.connected[x] == t.0.connected[x];
      }
    }
  }

  /** The dispensing set gains exactly the addresses of the picked dispensers. */
  lemma {:induction false} PickIps(f: Floor, order: seq<Mac>, meds: seq<Medicine>, n: nat)
    requires n <= |meds|
    ensures var r := PickUpTo(f, order, meds, n);
      r.0.dispensingIps == f.dispensingIps + PickedIps(f.connected, r.1, n)
  {
    if n > 0 {
      PickIps(f, order, meds, n - 1);
      var t := PickUpTo(f, order, meds, n - 1);
      var p := PickStep(t.0, order, meds[n - 1]);
      PickedIpsPrefix(f.connected, t.1 + [p.1], t.1, n - 1);
    }
  }

  // ---------------------------------------------------------------------------
  // Phase 2: each reply (renderer.js:2122-2166)

  /** A reply other than a 200 marks the dispenser 연결 끊김 and takes it out of the dispensing set. */
  function SendFloor(f: Floor, pick: Option<Mac>, ok: bool): (r: Floor)
    requires pick.Some? ==> pick.value in f.connected
    ensures SameDevices(f.connected, r.connected)
    ensures pick.None? || ok ==> r == f
  {
    if pick.None? || ok then f
    else
      var x := pick.value;
      Floor(f.connected[x := f.connected[x].(status := Disconnected)], f.dispensingIps - {f.connected[x].ip})
  }

  function SendFloorUpTo(f: Floor, picks: seq<Option<Mac>>, ok: seq<bool>, n: nat): (r: Floor)
    requires n <= |picks| == |ok| && PicksIn(picks, f.connected)
    ensures SameDevices(f.connected, r.connected)
  {
    if n == 0 then f
    else SendFloor(SendFloorUpTo(f, picks, ok, n - 1), picks[n - 1], ok[n - 1])
  }

  /** A 200 adds one transmission to the medicine's count; anything else records 0. */
  function SendLedger(L: LedgerState, ctx: Ctx, m: Medicine, pick: Option<Mac>, ok: bool): LedgerState
  {
    if pick.None? then L
    else if ok then Mark(L, ctx, m.pillCode, Increment(Some(StatusOrZero(L.medicine, Key(ctx.receipt, m.pillCode)))))
    else Mark(L, ctx, m.pillCode, Count(0))
  }

  function SendLedgerUpTo(L: LedgerState, ctx: Ctx, meds: seq<Medicine>, picks: seq<Option<Mac>>, ok: seq<bool>, n: nat)
    : (r: LedgerState)
    requires n <= |meds| == |picks| == |ok|
    ensures forall k :: Untouched(k, ctx, meds[..n]) ==> Lookup(r.medicine, k) == Lookup(L.medicine, k)
  {
    if n == 0 then L
    else
      var t := SendLedgerUpTo(L, ctx, meds, picks, ok, n - 1);
      assert forall m :: m in meds[..n] <==> m in meds[..n - 1] || m == meds[n - 1];
      SendLedger(t, ctx, meds[n - 1], picks[n - 1], ok[n - 1])
  }

  /** After the replies, the dispenser of a failed request is 연결 끊김. */
  lemma {:induction false} SendFailed(f: Floor, picks: seq<Option<Mac>>, ok: seq<bool>, n: nat, i: nat)
    requires n <= |picks| == |ok| && PicksIn(picks, f.connected) && Distinct(picks)
    requires i < n && picks[i].Some? && !ok[i]
    ensures SendFloorUpTo(f, picks, ok, n).connected[picks[i].value].status == Disconnected
  {
    assert forall k :: i < k < n ==> picks[k] != picks[i];
    SendFailedLater(f, picks, ok, n, i);
  }

  lemma {:induction false} SendFailedLater(f: Floor, picks: seq<Option<Mac>>, ok: seq<bool>, n: nat, i: nat)
    requires n <= |picks| == |ok| && PicksIn(picks, f.connected)
    requires i < n && picks[i].Some? && !ok[i]
    requires forall k :: i < k < n ==> picks[k] != picks[i]
    ensures SendFloorUpTo(f, picks, ok, n).connected[picks[i].value].status == Disconnected
  {
    var x := picks[i].value;
    SendStepFails(f, picks, ok, i + 1);
    var k := i + 1;
    while k < n
      invariant i < k <= n
      invariant SendFloorUpTo(f, picks, ok, k).connected[x].status == Disconnected
    {
      SendStepKeeps(f, picks, ok, k + 1, x);
      k := k + 1;
    }
    assert k == n;
  }

  /** A reply that fails the `n`-th request marks its dispenser 연결 끊김. */
  lemma {:induction false} SendStepFails(f: Floor, picks: seq<Option<Mac>>, ok: seq<bool>, n: nat)
    requires 0 < n <= |picks| == |ok| && PicksIn(picks, f.connected)
    requires picks[n - 1].Some? && !ok[n - 1]
    ensures SendFloorUpTo(f, picks, ok, n).connected[picks[n - 1].value].status == Disconnected
  {
    var t := SendFloorUpTo(f, picks, ok, n - 1);
    assert picks[n - 1].value in t.connected;
    assert SendFloorUpTo(f, picks, ok, n) == SendFloor(t, picks[n - 1], ok[n - 1]);
  }

  /** After the replies, a dispenser none of whose requests failed keeps its status. */
  lemma {:induction false} SendSpares(f: Floor, picks: seq<Option<Mac>>, ok: seq<bool>, n: nat, x: Mac)
    requires n <= |picks| == |ok| && PicksIn(picks, f.connected)
    requires x in f.connected && forall i :: 0 <= i < n && picks[i] == Some(x) ==> ok[i]
    ensures SendFloorUpTo(f, picks, ok, n).connected[x] == f.connected[x]
  {
    var k := 0;
    while k < n
      invariant k <= n
      invariant SendFloorUpTo(f, picks, ok, k).connected[x] == f.connected[x]
    {
      SendStepKeeps(f, picks, ok, k + 1, x);
      k := k + 1;
    }
  }

  /** One reply that does not fail `x`'s request leaves `x`'s entry as it was. */
  lemma {:induction false} SendStepKeeps(f: Floor, picks: seq<Option<Mac>>, ok: seq<bool>, n: nat, x: Mac)
    requires 0 < n <= |picks| == |ok| && PicksIn(picks, f.connected)
    requires x in f.connected && (picks[n - 1] == Some(x) ==> ok[n - 1])
    ensures SendFloorUpTo(f, picks, ok, n).connected[x] == SendFloorUpTo(f, picks, ok, n - 1).connected[x]
  {
    var t := SendFloorUpTo(f, picks, ok, n - 1);
    assert x in t.connected;
    assert SendFloorUpTo(f, picks, ok, n) == SendFloor(t, picks[n - 1], ok[n - 1]);
  }

  /** After the replies, exactly the addresses of the failed requests have left the dispensing set. */
  lemma {:induction false} SendIps(f: Floor, picks: seq<Option<Mac>>, ok: seq<bool>, n: nat)
    requires n <= |picks| == |ok| && PicksIn(picks, f.connected)
    ensures SendFloorUpTo(f, picks, ok, n).dispensingIps == f.dispensingIps - IpsWhere(f.connected, picks, ok, false, n)
  {
    if n > 0 {
      SendIps(f, picks, ok, n - 1);
    }
  }

  // ---------------------------------------------------------------------------
  // Phase 3: the settle loop (renderer.js:2168-2197)

  /**
   * A delivered medicine's dispenser goes back to 연결됨 and leaves the
   * dispensing set; otherwise the first dispenser with the pill code,
   * whatever its status, leaves the dispensing set.
   */
  function SettleFloor(f: Floor, order: seq<Mac>, m: Medicine, pick: Option<Mac>, ok: bool): (r: Floor)
    requires pick.Some? ==> pick.value in f.connected
    ensures SameDevices(f.connected, r.connected)
    ensures r.dispensingIps <= f.dispensingIps
    ensures !(pick.Some? && ok) ==> r.connected == f.connected
  {
    if pick.Some? && ok then
      var x := pick.value;
      Floor(f.connected[x := f.connected[x].(status := Connected)], f.dispensingIps - {f.connected[x].ip})
    else
      match FirstDevice(order, f.connected, m.pillCode, false)
      case Some(x) => f.(dispensingIps := f.dispensingIps - {f.connected[x].ip})
      case None => f
  }

  function SettleFloorUpTo(f: Floor, order: seq<Mac>, meds: seq<Medicine>, picks: seq<Option<Mac>>,
                           ok: seq<bool>, n: nat): (r: Floor)
    requires n <= |meds| == |picks| == |ok| && PicksIn(picks, f.connected)
    ensures SameDevices(f.connected, r.connected)
    ensures r.dispensingIps <= f.dispensingIps
  {
    if n == 0 then f
    else SettleFloor(SettleFloorUpTo(f, order, meds, picks, ok, n - 1), order, meds[n - 1], picks[n - 1],
                     ok[n - 1])
  }

  /** A medicine whose request did not succeed has its status set to 0 once more. */
  function SettleLedger(L: LedgerState, ctx: Ctx, m: Medicine, pick: Option<Mac>, ok: bool): LedgerState
  {
    if pick.Some? && ok then L else Mark(L, ctx, m.pillCode, Count(0))
  }

  function SettleLedgerUpTo(L: LedgerState, ctx: Ctx, meds: seq<Medicine>, picks: seq<Option<Mac>>, ok: seq<bool>,
                            n: nat): (r: LedgerState)
    requires n <= |meds| == |picks| == |ok|
    ensures forall k :: Untouched(k, ctx, meds[..n]) ==> Lookup(r.medicine, k) == Lookup(L.medicine, k)
  {
    if n == 0 then L
    else
      var t := SettleLedgerUpTo(L, ctx, meds, picks, ok, n - 1);
      assert forall m :: m in meds[..n] <==> m in meds[..n - 1] || m == meds[n - 1];
      SettleLedger(t, ctx, meds[n - 1], picks[n - 1], ok[n - 1])
  }

  /** After the settle loop, the dispenser of a delivered request is 연결됨 again. */
  lemma {:induction false} SettleDelivered(f: Floor, order: seq<Mac>, meds: seq<Medicine>, picks: seq<Option<Mac>>,
                        ok: seq<bool>, n: nat, i: nat)
    requires n <= |meds| == |picks| == |ok| && PicksIn(picks, f.connected) && Distinct(picks)
    requires i < n && picks[i].Some? && ok[i]
    ensures SettleFloorUpTo(f, order, meds, picks, ok, n).connected[picks[i].value].status == Connected
  {
    assert forall k :: i < k < n ==> picks[k] != picks[i];
    SettleDeliveredLater(f, order, meds, picks, ok, n, i);
  }

  lemma {:induction false} SettleDeliveredLater(f: Floor, order: seq<Mac>, meds: seq<Medicine>, picks: seq<Option<Mac>>,
                             ok: seq<bool>, n: nat, i: nat)
    requires n <= |meds| == |picks| == |ok| && PicksIn(picks, f.connected)
    requires i < n && picks[i].Some? && ok[i]
    requires forall k :: i < k < n ==> picks[k] != picks[i]
    ensures SettleFloorUpTo(f, order, meds, picks, ok, n).connected[picks[i].value].status == Connected
  {
    var x := picks[i].value;
    SettleStepDelivers(f, order, meds, picks, ok, i + 1);
    var k := i + 1;
    while k < n
      invariant i < k <= n
      invariant SettleFloorUpTo(f, order, meds, picks, ok, k).connected[x].status == Connected
    {
      SettleStepKeeps(f, order, meds, picks, ok, k + 1, x);
      k := k + 1;
    }
    assert k == n;
  }

  /** After the settle loop, a dispenser none of whose requests was delivered keeps its entry. */
  lemma {:induction false} SettleSpares(f: Floor, order: seq<Mac>, meds: seq<Medicine>, picks: seq<Option<Mac>>,
                     ok: seq<bool>, n: nat, x: Mac)
    requires n <= |meds| == |picks| == |ok| && PicksIn(picks, f.connected)
    requires x in f.connected && forall i :: 0 <= i < n && picks[i] == Some(x) ==> !ok[i]
    ensures SettleFloorUpTo(f, order, meds, picks, ok, n).connected[x] == f.connected[x]
  {
    var k := 0;
    while k < n
      invariant k <= n
      invariant SettleFloorUpTo(f, order, meds, picks, ok, k).connected[x] == f.connected[x]
    {
      SettleStepKeeps(f, order, meds, picks, ok, k + 1, x);
      k := k + 1;
    }
    assert k == n;
  }

  /** The settle step of a delivered request marks its dispenser 연결됨. */
  lemma {:induction false} SettleStepDelivers(f: Floor, order: seq<Mac>, meds: seq<Medicine>, picks: seq<Option<Mac>>,
                           ok: seq<bool>, n: nat)
    requires 0 < n <= |meds| == |picks| == |ok| && PicksIn(picks, f.connected)
    requires picks[n - 1].Some? && ok[n - 1]
    ensures SettleFloorUpTo(f, order, meds, picks, ok, n).connected[picks[n - 1].value].status == Connected
  {
    var t := SettleFloorUpTo(f, order, meds, picks, ok, n - 1);
    assert picks[n - 1].value in t.connected;
    assert SettleFloorUpTo(f, order, meds, picks, ok, n) == SettleFloor(t, order, meds[n - 1], picks[n - 1], ok[n - 1]);
  }

  /** A settle step for another dispenser, or for an undelivered request, leaves `x`'s entry as it was. */
  lemma {:induction false} SettleStepKeeps(f: Floor, order: seq<Mac>, meds: seq<Medicine>, picks: seq<Option<Mac>>,
                        ok: seq<bool>, n: nat, x: Mac)
    requires 0 < n <= |meds| == |picks| == |ok| && PicksIn(picks, f.connected)
    requires x in f.connected && (picks[n - 1] == Some(x) ==> !ok[n - 1])
    ensures SettleFloorUpTo(f, order, meds, picks, ok, n).connected[x]
         == SettleFloorUpTo(f, order, meds, picks, ok, n - 1).connected[x]
  {
    var t := SettleFloorUpTo(f, order, meds, picks, ok, n - 1);
    assert x in t.connected;
    assert SettleFloorUpTo(f, order, meds, picks, ok, n) == SettleFloor(t, order, meds[n - 1], picks[n - 1], ok[n - 1]);
  }

  /** After the settle loop, the addresses of the delivered requests have left the dispensing set. */
  lemma {:induction false} SettleIps(f: Floor, order: seq<Mac>, meds: seq<Medicine>, picks: seq<Option<Mac>>,
                                     ok: seq<bool>, n: nat)
    requires n <= |meds| == |picks| == |ok| && PicksIn(picks, f.connected)
    ensures SettleFloorUpTo(f, order, meds, picks, ok, n).dispensingIps
            <= f.dispensingIps - IpsWhere(f.connected, picks, ok, true, n)
  {
    if n > 0 {
      SettleIps(f, order, meds, picks, ok, n - 1);
    }
  }

  // ---------------------------------------------------------------------------
  // The three phases together

  /** Whether each of the first `n` requests settled with status 200. */
  function Outcomes(post: Poster, n: nat): (r: seq<bool>)
    ensures |r| == n && forall i :: 0 <= i < n ==> r[i] == Delivered(post, i)
  {
    seq(n, i requires 0 <= i < n => Delivered(post, i))
  }

  /**
   * The requests for the medicines `sent`, given whether each was delivered:
   * the dispensers and the ledger afterwards, and the dispenser each request
   * picked.
   */
  function Dispatch(f: Floor, L: LedgerState, ctx: Ctx, order: seq<Mac>, sent: seq<Medicine>, ok: seq<bool>)
    : (r: (Floor, LedgerState, seq<Option<Mac>>))
    requires |ok| == |sent|
    ensures SameDevices(f.connected, r.0.connected)
    ensures |r.2| == |sent| && PicksIn(r.2, f.connected)
    ensures forall k :: Untouched(k, ctx, sent) ==> Lookup(r.1.medicine, k) == Lookup(L.medicine, k)
  {
    var n := |sent|;
    var p := PickUpTo(f, order, sent, n);
    var f2 := SendFloorUpTo(p.0, p.1, ok, n);
    var f3 := SettleFloorUpTo(f2, order, sent, p.1, ok, n);
    var L2 := SendLedgerUpTo(L, ctx, sent, p.1, ok, n);
    var L3 := SettleLedgerUpTo(L2, ctx, sent, p.1, ok, n);
    assert sent[..n] == sent;
    (f3, L3, p.1)
  }

  /**
   * Every address the requests added has left the dispensing set again
   * by the end of the settle loop, whether its request succeeded or not.
   */
  lemma {:induction false} DispatchIps(f: Floor, L: LedgerState, ctx: Ctx, order: seq<Mac>, sent: seq<Medicine>, ok: seq<bool>)
    requires |ok| == |sent|
    ensures var r := Dispatch(f, L, ctx, order, sent, ok);
      r.0.dispensingIps <= f.dispensingIps - PickedIps(f.connected, r.2, |sent|)
  {
    var n := |sent|;
    var p := PickUpTo(f, order, sent, n);
    var f2 := SendFloorUpTo(p.0, p.1, ok, n);
    PickIps(f, order, sent, n);
    SendIps(p.0, p.1, ok, n);
    SettleIps(f2, order, sent, p.1, ok, n);
    PickedIpsSplit(f.connected, p.1, ok, n);
    IpsWhereSame(f.connected, p.0.connected, p.1, ok, false, n);
    IpsWhereSame(f.connected, f2.connected, p.1, ok, true, n);
  }

  /**
   * A dispenser a request picked was 연결됨 with the medicine's pill code;
   * afterwards it is 연결됨 again when the request was delivered and 연결 끊김
   * when it was not.
   */
  lemma {:induction false} DispatchPicked(f: Floor, L: LedgerState, ctx: Ctx, order: seq<Mac>, sent: seq<Medicine>, ok: seq<bool>, i: nat)
    requires |ok| == |sent| && i < |sent|
    ensures var r := Dispatch(f, L, ctx, order, sent, ok);
      r.2[i].Some? ==>
        var x := r.2[i].value;
        f.connected[x].status == Connected && f.connected[x].pillCode == sent[i].pillCode
        && r.0.connected[x].status == (if ok[i] then Connected else Disconnected)
  {
    var n := |sent|;
    var p := PickUpTo(f, order, sent, n);
    var f2 := SendFloorUpTo(p.0, p.1, ok, n);
    if p.1[i].Some? {
      var x := p.1[i].value;
      PickStatuses(f, order, sent, n);
      PickDistinct(f, order, sent, n);
      assert forall j :: 0 <= j < n && p.1[j] == Some(x) ==> j == i;
      if ok[i] {
        SendSpares(p.0, p.1, ok, n, x);
        SettleDelivered(f2, order, sent, p.1, ok, n, i);
      } else {
        SendFailed(p.0, p.1, ok, n, i);
        SettleSpares(f2, order, sent, p.1, ok, n, x);
      }
    }
  }

  /** A dispenser no request picked keeps its entry. */
  lemma {:induction false} DispatchSpares(f: Floor, L: LedgerState, ctx: Ctx, order: seq<Mac>, sent: seq<Medicine>, ok: seq<bool>, x: Mac)
    requires |ok| == |sent| && x in f.connected
    ensures var r := Dispatch(f, L, ctx, order, sent, ok);
      !PickedAmong(r.2, x, |sent|) ==> r.0.connected[x] == f.connected[x]
  {
    var n := |sent|;
    var p := PickUpTo(f, order, sent, n);
    var f2 := SendFloorUpTo(p.0, p.1, ok, n);
    if !PickedAmong(p.1, x, n) {
      PickUntouched(f, order, sent, n);
      SendSpares(p.0, p.1, ok, n, x);
      SettleSpares(f2, order, sent, p.1, ok, n, x);
    }
  }

  // ---------------------------------------------------------------------------
  // The whole coordinator

  /** The state once the health check is slowed down and paused for the dispense (renderer.js:2006-2012). */
  function Begin(s: FleetState): FleetState
  {
    s.(intervalMs := SlowIntervalMs, inProgress := true, dispensingIps := {}, delayArmed := true)
  }

  /** The failures recorded before anything is sent (renderer.js:2047-2097). */
  function MarkFailures(L: LedgerState, ctx: Ctx, s: FleetState, selected: seq<Medicine>): LedgerState
  {
    var L2 := MarkAll(L, ctx, OfClass(s, selected, NotRegistered), Label(Unregistered));
    var L3 := MarkAll(L2, ctx, OfClass(s, selected, OverLimit), Count(0));
    MarkAll(L3, ctx, OfClass(s, selected, NotConnected), Label(FailedLabel))
  }

  /**
   * `startDispensingInternal(receipt, isAuto)`: nothing without a parsed
   * prescription or a connected dispenser; otherwise pause the health check,
   * record the medicines that cannot be sent, send the rest, and resume the
   * normal interval once no dispenser is dispensing.
   */
  function StartDispensingInternal(s: FleetState, receipt: string, boxes: map<string, Box>, isAuto: bool, post: Poster)
    : (r: FleetState)
    ensures receipt !in s.prescriptions || s.connected == map[] ==> r == s
    ensures r == s.(connected := r.connected, dispensingIps := r.dispensingIps, ledger := r.ledger,
                    inProgress := r.inProgress, autoInProgress := r.autoInProgress,
                    delayArmed := r.delayArmed, intervalMs := r.intervalMs)
    ensures SameDevices(s.connected, r.connected)
    ensures r.autoInProgress ==> s.autoInProgress
  {
    if receipt !in s.prescriptions || s.connected == map[] then s
    else DispenseSelected(Begin(s), receipt, boxes, isAuto, post)
  }

  /** Once the health check is paused: nothing when no medicine is selected. */
  function DispenseSelected(s1: FleetState, receipt: string, boxes: map<string, Box>, isAuto: bool, post: Poster)
    : (r: FleetState)
    requires receipt in s1.prescriptions
    ensures r == s1.(connected := r.connected, dispensingIps := r.dispensingIps, ledger := r.ledger,
                     inProgress := r.inProgress, autoInProgress := r.autoInProgress,
                     delayArmed := r.delayArmed, intervalMs := r.intervalMs)
    ensures SameDevices(s1.connected, r.connected)
    ensures r.autoInProgress ==> s1.autoInProgress
  {
    var selected := Selected(s1, receipt, boxes, isAuto);
    if |selected| == 0 then s1 else SendClassified(s1, ContextOf(s1, receipt), selected, post)
  }

  /** Record the selected medicines that cannot be sent, then send the rest. */
  function SendClassified(s1: FleetState, ctx: Ctx, selected: seq<Medicine>, post: Poster): (r: FleetState)
    ensures r == s1.(connected := r.connected, dispensingIps := r.dispensingIps, ledger := r.ledger,
                     inProgress := r.inProgress, autoInProgress := r.autoInProgress,
                     delayArmed := r.delayArmed, intervalMs := r.intervalMs)
    ensures SameDevices(s1.connected, r.connected)
    ensures r.autoInProgress ==> s1.autoInProgress
  {
    var s2 := s1.(ledger := MarkFailures(s1.ledger, ctx, s1, selected));
    var sent := OfClass(s1, selected, Sendable);
    if |sent| == 0 then s2 else Finish(SendAll(s2, ctx, sent, post))
  }

  /** The requests for the medicines `sent`, with the replies `post` gives. */
  function SendAll(s: FleetState, ctx: Ctx, sent: seq<Medicine>, post: Poster): (r: FleetState)
    ensures r == s.(connected := r.connected, dispensingIps := r.dispensingIps, ledger := r.ledger)
    ensures SameDevices(s.connected, r.connected)
  {
    var d := Dispatch(Floor(s.connected, s.dispensingIps), s.ledger, ctx, s.connectedOrder, sent, Outcomes(post, |sent|));
    s.(connected := d.0.connected, dispensingIps := d.0.dispensingIps, ledger := d.1)
  }

  /**
   * Once no dispenser is dispensing, the pause ends, the automatic run is
   * over and the health check returns to the normal interval.
   */
  function Finish(s: FleetState): (r: FleetState)
    ensures r == s.(inProgress := r.inProgress, autoInProgress := r.autoInProgress, delayArmed := r.delayArmed,
                    intervalMs := r.intervalMs)
    ensures s.dispensingIps == {} ==>
      !r.inProgress && !r.autoInProgress && !r.delayArmed && r.intervalMs == NormalIntervalMs
    ensures s.dispensingIps != {} ==> r == s
  {
    if s.dispensingIps == {} then
      s.(inProgress := false, autoInProgress := false, delayArmed := false, intervalMs := NormalIntervalMs)
    else s
  }

  /** The medicines a dispense sends: the selected ones of class `Sendable`. */
  function Sent(s: FleetState, receipt: string, boxes: map<string, Box>, isAuto: bool): seq<Medicine>
    requires receipt in s.prescriptions
  {
    var s1 := Begin(s);
    OfClass(s1, Selected(s1, receipt, boxes, isAuto), Sendable)
  }

  /**
   * Once a medicine was sent, the dispense always ends with no dispenser
   * dispensing, so the health check is resumed at the normal interval.
   */
  lemma {:induction false} DispenseResumesChecks(s: FleetState, receipt: string, boxes: map<string, Box>, isAuto: bool, post: Poster)
    requires receipt in s.prescriptions && s.connected != map[]
    requires |Sent(s, receipt, boxes, isAuto)| > 0
    ensures var r := StartDispensingInternal(s, receipt, boxes, isAuto, post);
      r.dispensingIps == {} && !r.inProgress && !r.autoInProgress && !r.delayArmed
      && r.intervalMs == NormalIntervalMs
  {
    var s1 := Begin(s);
    var selected := Selected(s1, receipt, boxes, isAuto);
    var sent := OfClass(s1, selected, Sendable);
    var ctx := ContextOf(s1, receipt);
    var s2 := s1.(ledger := MarkFailures(s1.ledger, ctx, s1, selected));
    DispatchIps(Floor(s2.connected, s2.dispensingIps), s2.ledger, ctx, s2.connectedOrder, sent, Outcomes(post, |sent|));
    assert SendAll(s2, ctx, sent, post).dispensingIps == {};
    assert StartDispensingInternal(s, receipt, boxes, isAuto, post) == Finish(SendAll(s2, ctx, sent, post));
  }

  /**
   * When nothing is sent, the dispense returns early with the health check
   * still paused at the slow interval; only the pause's timer resumes it.
   */
  lemma {:induction false} NothingSentKeepsPause(s: FleetState, receipt: string, boxes: map<string, Box>, isAuto: bool, post: Poster)
    requires receipt in s.prescriptions && s.connected != map[]
    requires |Sent(s, receipt, boxes, isAuto)| == 0
    ensures var r := StartDispensingInternal(s, receipt, boxes, isAuto, post);
      r.dispensingIps == {} && r.inProgress && r.delayArmed && r.intervalMs == SlowIntervalMs
      && r.connected == s.connected && r.autoInProgress == s.autoInProgress
  {
    var s1 := Begin(s);
    var selected := Selected(s1, receipt, boxes, isAuto);
    var r := StartDispensingInternal(s, receipt, boxes, isAuto, post);
    assert r == DispenseSelected(s1, receipt, boxes, isAuto, post);
    if |selected| > 0 {
      var ctx := ContextOf(s1, receipt);
      assert OfClass(s1, selected, Sendable) == Sent(s, receipt, boxes, isAuto);
      assert r == SendClassified(s1, ctx, selected, post);
      assert r == s1.(ledger := MarkFailures(s1.ledger, ctx, s1, selected));
    }
  }

  // ---------------------------------------------------------------------------
  // The entry point (renderer.js:1949-1989)

  /**
   * `startDispensing(isAuto)`. `highlighted` is the receipt number of the
   * selected patient row and `first` that of the first patient row, when
   * there are such rows. An automatic start is refused while an automatic run
   * is in progress. With no selected row, an automatic start takes the first
   * row and, when that row has a receipt number, marks an automatic run as in
   * progress before dispensing it. The 200 ms wait for the medicines to load
   * is folded away: `boxes` are the checkboxes present when
   * `startDispensingInternal` runs.
   */
  function StartDispensing(s: FleetState, isAuto: bool, highlighted: Option<string>, first: Option<string>,
                           boxes: map<string, Box>, post: Poster): (r: FleetState)
    ensures isAuto && s.autoInProgress ==> r == s
    ensures highlighted.None? && !(isAuto && first.Some?) ==> r == s
    ensures r.autoInProgress ==> s.autoInProgress || (isAuto && highlighted.None?)
    ensures SameDevices(s.connected, r.connected)
  {
    if isAuto && s.autoInProgress then s
    else if highlighted.Some? then StartDispensingInternal(s, highlighted.value, boxes, isAuto, post)
    else if !isAuto || first.None? then s
    else if first.value != "" then StartDispensingInternal(s.(autoInProgress := true), first.value, boxes, isAuto, post)
    else StartDispensingInternal(s, first.value, boxes, isAuto, post)
  }

  /**
   * An automatic start from the first patient row that sends a medicine ends
   * the automatic run, so the next automatic start is accepted.
   */
  lemma {:induction false} AutoRunEndsAfterSend(s: FleetState, receipt: string, boxes: map<string, Box>, post: Poster)
    requires !s.autoInProgress && receipt != "" && receipt in s.prescriptions && s.connected != map[]
    requires |Sent(s.(autoInProgress := true), receipt, boxes, true)| > 0
    ensures !StartDispensing(s, true, None, Some(receipt), boxes, post).autoInProgress
  {
    DispenseResumesChecks(s.(autoInProgress := true), receipt, boxes, true, post);
  }

  /**
   * An automatic start from the first patient row while no dispenser is
   * connected returns early with the automatic run still marked as in
   * progress; from then on every automatic start is refused.
   */
  lemma {:induction false} AutoRunStuckWithoutDispenser(s: FleetState, receipt: string, boxes: map<string, Box>,
                                                         post: Poster, h: Option<string>, f: Option<string>,
                                                         boxes2: map<string, Box>, post2: Poster)
    requires !s.autoInProgress && receipt != "" && s.connected == map[]
    ensures var r := StartDispensing(s, true, None, Some(receipt), boxes, post);
      r.autoInProgress && StartDispensing(r, true, h, f, boxes2, post2) == r
  {
    assert StartDispensing(s, true, None, Some(receipt), boxes, post)
        == StartDispensingInternal(s.(autoInProgress := true), receipt, boxes, true, post);
  }

  /** A hand-started dispense that sends a medicine also ends an automatic run left in progress. */
  lemma {:induction false} ManualSendEndsAutoRun(s: FleetState, receipt: string, boxes: map<string, Box>, post: Poster)
    requires receipt in s.prescriptions && s.connected != map[]
    requires |Sent(s, receipt, boxes, false)| > 0
    ensures !StartDispensing(s, false, Some(receipt), None, boxes, post).autoInProgress
  {
    DispenseResumesChecks(s, receipt, boxes, false, post);
  }

  /**
   * The timer of `startConnectionCheckDelay` fires (renderer.js:3405-3414):
   * the pause ends; the interval the dispense set is left as it is.
   */
  function CheckDelayExpired(s: FleetState): (r: FleetState)
    ensures !r.delayArmed
    ensures s.delayArmed ==> !r.inProgress
    ensures !s.delayArmed ==> r == s
    ensures r.intervalMs == s.intervalMs && r.connected == s.connected && r.dispensingIps == s.dispensingIps
  {
    if s.delayArmed then s.(inProgress := false, delayArmed := false) else s
  }
}
