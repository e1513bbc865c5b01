/**
 * Transmission bookkeeping of the renderer: how many times each medicine of
 * each prescription has been sent to a dispenser, the patient-level summary,
 * and the list of recent manual dispenses (renderer.js:104-156, 2855-2956).
 */
module Transmission {
  import opened Wrappers
  import opened Text

  /** The marker a medicine gets when no saved dispenser carries its pill code. */
  const Unregistered: string := "등록되지 않은 약물"

  /** The label a medicine gets when its dispenser is not connected. */
  const FailedLabel: string := "실패"

  /** A stored status: a transmission count (0 means failed) or a text label. */
  datatype TxStatus = Count(n: int) | Label(text: string)

  /** The count a status stands for when one more transmission is added to it. */
  function CountOf(s: Option<TxStatus>): int
  {
    if s.Some? && s.value.Count? then s.value.n else 0
  }

  predicate IsMarker(s: Option<TxStatus>)
  {
    s == Some(Label(Unregistered))
  }

  /** `getStatusText`: the marker itself, a count in decimal, and `'0'` for anything else. */
  function StatusText(s: Option<TxStatus>): (r: string)
    ensures r == Unregistered <==> IsMarker(s)
    ensures s.Some? && s.value.Count? ==> ParseInt(r) == Some(s.value.n)
    ensures !IsMarker(s) && !(s.Some? && s.value.Count?) ==> r == "0"
  {
    if IsMarker(s) then Unregistered
    else if s.Some? && s.value.Count? then
      var n := s.value.n;
      ParseIntString(n);
      if n == 0 then "0" else
        var t := IntToString(n);
        assert t[0] != Unregistered[0];
        t
    else "0"
  }

  /** `getStatusBadgeClass`: dark for the marker, green for a non-zero count, grey otherwise. */
  function BadgeClass(s: Option<TxStatus>): (r: string)
    ensures r == "bg-dark" <==> IsMarker(s)
    ensures r == "bg-success" <==> s.Some? && s.value.Count? && s.value.n != 0
    ensures r in {"bg-dark", "bg-secondary", "bg-success"}
  {
    if IsMarker(s) then "bg-dark"
    else if s.Some? && s.value.Count? then (if s.value.n == 0 then "bg-secondary" else "bg-success")
    else "bg-secondary"
  }

  /** `isSuccessStatus`: a positive count. */
  predicate IsSuccess(s: Option<TxStatus>)
  {
    !IsMarker(s) && s.Some? && s.value.Count? && s.value.n > 0
  }

  /** A successful status is shown green; among non-negative statuses only successes are. */
  lemma {:induction false} SuccessIsGreen(s: Option<TxStatus>)
    ensures IsSuccess(s) ==> BadgeClass(s) == "bg-success"
    ensures BadgeClass(s) == "bg-success" && CountOf(s) >= 0 ==> IsSuccess(s)
  {
  }

  /** `incrementTransmissionCount`: the marker stays, anything else counts one more transmission. */
  function Increment(s: Option<TxStatus>): (r: TxStatus)
    ensures IsMarker(s) <==> r == Label(Unregistered)
    ensures !IsMarker(s) ==> r == Count(CountOf(s) + 1)
  {
    if IsMarker(s) then Label(Unregistered)
    else if s.Some? && s.value.Count? then Count(s.value.n + 1)
    else Count(1)
  }

  /** Incrementing a status that is not the marker and not a negative count gives a success. */
  lemma {:induction false} IncrementSucceeds(s: Option<TxStatus>)
    requires !IsMarker(s) && CountOf(s) >= 0
    ensures IsSuccess(Some(Increment(s)))
  {
  }

  // ---------------------------------------------------------------------------
  // The two status tables

  /** The key of a medicine's status: `${receiptNumber}_${pillCode}`. */
  function Key(receipt: string, code: string): (k: string)
    ensures |k| == |receipt| + 1 + |code|
    ensures k[..|receipt|] == receipt && k[|receipt|] == '_' && k[|receipt| + 1..] == code
  {
    receipt + "_" + code
  }

  /** Within one prescription, different pill codes have different keys. */
  lemma {:induction false} KeyInjective(receipt: string, c1: string, c2: string)
    requires Key(receipt, c1) == Key(receipt, c2)
    ensures c1 == c2
  {
    assert c1 == Key(receipt, c1)[|receipt| + 1..];
  }

  /** `medicineTransmissionStatus` (per medicine key) and `transmissionStatus` (per receipt). */
  datatype LedgerState = LedgerState(medicine: map<string, TxStatus>, patient: map<string, int>)

  function Lookup(m: map<string, TxStatus>, key: string): Option<TxStatus>
  {
    if key in m then Some(m[key]) else None
  }

  /** `medicineTransmissionStatus[key] || 0`: a missing entry, or a falsy one, reads as 0. */
  function StatusOrZero(m: map<string, TxStatus>, key: string): (r: TxStatus)
    ensures key !in m ==> r == Count(0)
    ensures key in m && m[key] != Label("") ==> r == m[key]
  {
    if key in m && m[key] != Label("") then m[key] else Count(0)
  }

  /** A medicine whose status enters the patient summary as the number `n`. */
  predicate CountsAs(receipt: string, code: string, registered: set<string>, m: map<string, TxStatus>, n: int)
  {
    code in registered && StatusOrZero(m, Key(receipt, code)) == Count(n)
  }

  /** The numeric statuses of the registered medicines among `codes`, in order. */
  function NumericStatuses(receipt: string, codes: seq<string>, registered: set<string>,
                           m: map<string, TxStatus>): (r: seq<int>)
    ensures forall n :: n in r <==> exists c :: c in codes && CountsAs(receipt, c, registered, m, n)
  {
    if |codes| == 0 then []
    else
      var rest := NumericStatuses(receipt, codes[1..], registered, m);
      assert forall c :: c in codes <==> c == codes[0] || c in codes[1..];
      var st := StatusOrZero(m, Key(receipt, codes[0]));
      assert forall n :: CountsAs(receipt, codes[0], registered, m, n) <==> codes[0] in registered && st == Count(n);
      if codes[0] in registered && st.Count? then [st.n] + rest else rest
  }

  function Max(s: seq<int>): (r: int)
    requires |s| > 0
    ensures r in s && forall x :: x in s ==> x <= r
  {
    if |s| == 1 then s[0]
    else
      var m := Max(s[1..]);
      assert forall x :: x in s ==> x == s[0] || x in s[1..];
      if s[0] >= m then s[0] else m
  }

  /**
   * The patient status `updatePatientTransmissionStatus` computes: the largest
   * numeric status among the prescription's registered medicines, 0 when there is none.
   */
  function PatientOverall(receipt: string, codes: seq<string>, registered: set<string>,
                          m: map<string, TxStatus>): (r: int)
    ensures forall c, n :: c in codes && CountsAs(receipt, c, registered, m, n) ==> n <= r
    ensures r == 0 || exists c :: c in codes && CountsAs(receipt, c, registered, m, r)
    ensures (forall c, n :: c in codes ==> !CountsAs(receipt, c, registered, m, n)) ==> r == 0
  {
    var ns := NumericStatuses(receipt, codes, registered, m);
    assert forall c, n :: c in codes && CountsAs(receipt, c, registered, m, n) ==> n in ns;
    if |ns| == 0 then 0 else Max(ns)
  }

  /** The guard of `updateMedicineTransmissionStatus`: a success is not replaced by 0 unless forced. */
  predicate Protected(current: Option<TxStatus>, status: TxStatus, force: bool)
  {
    IsSuccess(current) && status == Count(0) && !force
  }

  /** `updatePatientTransmissionStatus`: nothing without a parsed prescription. */
  function PatientUpdate(L: LedgerState, receipt: string, medicines: Option<seq<string>>,
                         registered: set<string>): (r: LedgerState)
    ensures r.medicine == L.medicine
    ensures medicines.None? ==> r == L
    ensures medicines.Some? ==>
      r.patient.Keys == L.patient.Keys + {receipt}
      && r.patient[receipt] == PatientOverall(receipt, medicines.value, registered, L.medicine)
    ensures forall q :: q in L.patient && q != receipt ==> r.patient[q] == L.patient[q]
  {
    if medicines.None? then L
    else LedgerState(L.medicine, L.patient[receipt := PatientOverall(receipt, medicines.value, registered, L.medicine)])
  }

  /**
   * `updateMedicineTransmissionStatus(receipt, code, status, force)`: unless
   * protected, store the status and recompute the patient summary. `medicines`
   * are the pill codes of the parsed prescription, `registered` the pill codes
   * of the saved dispensers.
   */
  function MedicineUpdate(L: LedgerState, receipt: string, code: string, status: TxStatus, force: bool,
                          medicines: Option<seq<string>>, registered: set<string>): (r: LedgerState)
    ensures Protected(Lookup(L.medicine, Key(receipt, code)), status, force) ==> r == L
    ensures !Protected(Lookup(L.medicine, Key(receipt, code)), status, force) ==>
      r == PatientUpdate(LedgerState(L.medicine[Key(receipt, code) := status], L.patient), receipt, medicines, registered)
  {
    var key := Key(receipt, code);
    if Protected(Lookup(L.medicine, key), status, force) then L
    else PatientUpdate(LedgerState(L.medicine[key := status], L.patient), receipt, medicines, registered)
  }

  /** A success survives any unforced update to 0, and only a forced one can reset it. */
  lemma {:induction false} SuccessSurvivesZero(L: LedgerState, receipt: string, code: string, force: bool,
                            medicines: Option<seq<string>>, registered: set<string>)
    requires IsSuccess(Lookup(L.medicine, Key(receipt, code)))
    ensures !force ==> MedicineUpdate(L, receipt, code, Count(0), force, medicines, registered) == L
    ensures force ==> MedicineUpdate(L, receipt, code, Count(0), force, medicines, registered)
                        .medicine[Key(receipt, code)] == Count(0)
  {
  }

  /** Every key but the updated one keeps its status. */
  lemma {:induction false} UpdateTouchesOneKey(L: LedgerState, receipt: string, code: string, status: TxStatus, force: bool,
                            medicines: Option<seq<string>>, registered: set<string>, other: string)
    requires other != Key(receipt, code)
    ensures Lookup(MedicineUpdate(L, receipt, code, status, force, medicines, registered).medicine, other)
            == Lookup(L.medicine, other)
  {
  }

  /** No count ever drops below zero. */
  predicate NonNegative(L: LedgerState)
  {
    (forall k :: k in L.medicine && L.medicine[k].Count? ==> L.medicine[k].n >= 0)
    && (forall q :: q in L.patient ==> L.patient[q] >= 0)
  }

  /** Storing non-negative statuses keeps every count, and every patient summary, non-negative. */
  lemma {:induction false} UpdateKeepsNonNegative(L: LedgerState, receipt: string, code: string, status: TxStatus, force: bool,
                               medicines: Option<seq<string>>, registered: set<string>)
    requires NonNegative(L)
    requires status.Count? ==> status.n >= 0
    ensures NonNegative(MedicineUpdate(L, receipt, code, status, force, medicines, registered))
  {
    var r := MedicineUpdate(L, receipt, code, status, force, medicines, registered);
    if !Protected(Lookup(L.medicine, Key(receipt, code)), status, force) && medicines.Some? {
      var m := L.medicine[Key(receipt, code) := status];
      var p := PatientOverall(receipt, medicines.value, registered, m);
      if p != 0 {
        var c :| c in medicines.value && CountsAs(receipt, c, registered, m, p);
        assert StatusOrZero(m, Key(receipt, c)) == Count(p);
      }
    }
  }

  /** The two tables, updated in place. */
  class Ledger {
    var medicineStatus: map<string, TxStatus>
    var patientStatus: map<string, int>

    function State(): LedgerState
      reads this
    {
      LedgerState(medicineStatus, patientStatus)
    }

    constructor()
      ensures State() == LedgerState(map[], map[])
    {
      medicineStatus := map[];
      patientStatus := map[];
    }

    method UpdatePatientStatus(receipt: string, medicines: Option<seq<string>>, registered: set<string>)
      modifies this
      ensures State() == PatientUpdate(old(State()), receipt, medicines, registered)
    {
      if medicines.None? {
        return;
      }
      patientStatus := patientStatus[receipt := PatientOverall(receipt, medicines.value, registered, medicineStatus)];
    }

    method UpdateMedicineStatus(receipt: string, code: string, status: TxStatus, force: bool,
                                medicines: Option<seq<string>>, registered: set<string>)
      modifies this
      ensures State() == MedicineUpdate(old(State()), receipt, code, status, force, medicines, registered)
    {
      var key := Key(receipt, code);
      var current := Lookup(medicineStatus, key);
      if IsSuccess(current) && status == Count(0) && !force {
        return;
      }
      medicineStatus := medicineStatus[key := status];
      UpdatePatientStatus(receipt, medicines, registered);
    }
  }

  // ---------------------------------------------------------------------------
  // Recent manual dispenses (renderer.js:139-156)

  const ManualListLimit: nat := 10

  /** One row of the manual dispense list; `time` and `id` come from the clock. */
  datatype ManualEntry = ManualEntry(time: string, syrupName: string, mac: string, total: string,
                                     status: string, statusClass: string, id: real)

  class ManualStatusList {
    var entries: seq<ManualEntry>

    constructor()
      ensures entries == []
    {
      entries := [];
    }

    /**
     * `addManualStatus`: put a new "sending" entry first and keep the ten most
     * recent; the entry's id is returned.
     */
    method AddManualStatus(syrupName: string, mac: string, total: string, time: string, now: real)
      returns (id: real)
      modifies this
      ensures id == now
      ensures |entries| == if |old(entries)| + 1 > ManualListLimit then ManualListLimit else |old(entries)| + 1
      ensures entries[0] == ManualEntry(time, syrupName, mac, total, "전송중", "manual-status-sending", now)
      ensures forall i :: 1 <= i < |entries| ==> entries[i] == old(entries)[i - 1]
    {
      var entry := ManualEntry(time, syrupName, mac, total, "전송중", "manual-status-sending", now);
      entries := [entry] + entries;
      if |entries| > ManualListLimit {
        entries := entries[..ManualListLimit];
      }
      id := entry.id;
    }
  }
}
