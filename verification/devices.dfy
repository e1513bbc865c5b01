/**
 * What a syrup dispenser says over HTTP, and how the renderer names a
 * dispenser: by its MAC address, compared after normalisation.
 */
module Devices {
  import opened Wrappers
  import opened Text
  import opened Ordered

  type Ip = string
  type Mac = string

  /** The JSON body of a dispenser's reply: its `mac` and `status` fields, when present. */
  datatype Body = Body(mac: Option<string>, status: Option<string>)

  /** An axios / requests error: its `code` and its `message`. */
  datatype NetError = NetError(code: string, message: string)

  /** One HTTP exchange: a reply with a status code and a body, or an error without a reply. */
  datatype Reply = Http(code: int, body: Body) | Fault(err: NetError)

  /** JavaScript truthiness of `data.mac`: present and not the empty string. */
  predicate HasMac(b: Body)
  {
    b.mac.Some? && b.mac.value != ""
  }

  predicate IsSeparator(c: char)
  {
    c == ':' || c == '-'
  }

  /** `normalizeMac`: drop every `:` and `-`, upper-case the rest (renderer.js:566-568). */
  function NormalizeMac(s: string): (r: string)
    ensures |r| <= |s|
    ensures forall i :: 0 <= i < |r| ==> !IsSeparator(r[i]) && !('a' <= r[i] <= 'z')
    ensures (forall i :: 0 <= i < |s| ==> !IsSeparator(s[i]) && !('a' <= s[i] <= 'z')) ==> r == s
  {
    if |s| == 0 then []
    else if IsSeparator(s[0]) then NormalizeMac(s[1..])
    else [UpperChar(s[0])] + NormalizeMac(s[1..])
  }

  /** Normalising twice is normalising once. */
  lemma {:induction false} NormalizeMacIdempotent(s: string)
    ensures NormalizeMac(NormalizeMac(s)) == NormalizeMac(s)
    decreases |s|
  {
    if |s| > 0 {
      NormalizeMacIdempotent(s[1..]);
    }
  }

  /** Two spellings of one MAC that differ only in separators and letter case normalise alike. */
  lemma {:induction false} NormalizeMacIgnoresSeparator(a: string, c: char, b: string)
    requires IsSeparator(c)
    ensures NormalizeMac(a + [c] + b) == NormalizeMac(a + b)
    decreases |a|
  {
    if |a| == 0 {
      assert (a + [c] + b)[1..] == b;
      assert a + b == b;
    } else {
      NormalizeMacIgnoresSeparator(a[1..], c, b);
      assert (a + [c] + b)[1..] == a[1..] + [c] + b;
      assert (a + b)[1..] == a[1..] + b;
    }
  }

  // ---------------------------------------------------------------------------
  // Scanning the subnet (renderer.js:534-656)

  /** The addresses the renderer's scan probes: the prefix followed by 1 to 255. */
  function RendererScanTargets(prefix: string): (r: seq<Ip>)
    ensures |r| == 255
    ensures forall i :: 0 <= i < 255 ==> r[i] == prefix + NatToString(i + 1)
  {
    seq(255, i requires 0 <= i < 255 => prefix + NatToString(i + 1))
  }

  /**
   * `checkIP`: the body of an HTTP 200 reply that says it is `ready` or carries
   * a MAC; `None` (JavaScript `null`) for anything else, errors included.
   */
  function CheckIp(reply: Reply): (r: Option<Body>)
    ensures r.Some? <==> reply.Http? && reply.code == 200
                         && (reply.body.status == Some("ready") || HasMac(reply.body))
    ensures r.Some? ==> r.value == reply.body
  {
    match reply
    case Http(code, body) =>
      if code == 200 && (body.status == Some("ready") || HasMac(body)) then Some(body) else None
    case Fault(_) => None
  }

  /** One entry of the scan's `results` object: the probed address and what `checkIP` gave. */
  type ScanResult = (Ip, Option<Body>)

  /** An entry that enters `foundDevices`: a body with a MAC, at an address under the prefix. */
  predicate Contributes(e: ScanResult, prefix: string)
  {
    e.1.Some? && HasMac(e.1.value) && StartsWith(e.0, prefix)
  }

  function FoundKey(e: ScanResult): string
    requires e.1.Some? && e.1.value.mac.Some?
  {
    NormalizeMac(e.1.value.mac.value)
  }

  /** Entry `i` contributes key `k` and no earlier entry does. */
  predicate FirstFor(results: seq<ScanResult>, prefix: string, k: string, i: int)
  {
    0 <= i < |results| && Contributes(results[i], prefix) && FoundKey(results[i]) == k
    && forall j :: 0 <= j < i ==> !(Contributes(results[j], prefix) && FoundKey(results[j]) == k)
  }

  /**
   * An entry of `uniqueDevices`: the address, the MAC as the dispenser spelled
   * it, and the status the network table shows for it.
   */
  datatype Sighting = Sighting(ip: Ip, mac: Mac, status: string)

  /** `data.status || 'ready'`. */
  function ShownStatus(b: Body): string
  {
    if b.status.Some? && b.status.value != "" then b.status.value else "ready"
  }

  function SightingOf(e: ScanResult): Sighting
    requires e.1.Some? && e.1.value.mac.Some?
  {
    Sighting(e.0, e.1.value.mac.value, ShownStatus(e.1.value))
  }

  /** The normalised MACs of `uniq`. */
  function KeysOf(uniq: seq<Sighting>): set<string>
  {
    set u | u in uniq :: NormalizeMac(u.mac)
  }

  /**
   * The walk of renderer.js:628-656 over `results[..n]`: `foundDevices`, and the
   * entries of `uniqueDevices` in insertion order. Each normalised MAC is a
   * key once, with the address of its first entry.
   */
  function Reduce(results: seq<ScanResult>, prefix: string, n: nat): (r: (map<string, Ip>, seq<Sighting>))
    requires n <= |results|
    ensures |r.1| <= n
  {
    if n == 0 then (map[], [])
    else
      var (found, uniq) := Reduce(results, prefix, n - 1);
      var e := results[n - 1];
      if Contributes(e, prefix) && FoundKey(e) !in found then (found[FoundKey(e) := e.0], uniq + [SightingOf(e)])
      else (found, uniq)
  }

  /** The keys of `foundDevices` are the normalised MACs of `uniqueDevices`, each once, with its address. */
  ghost predicate Indexes(found: map<string, Ip>, uniq: seq<Sighting>)
  {
    found.Keys == KeysOf(uniq)
    && (forall j :: 0 <= j < |uniq| ==> NormalizeMac(uniq[j].mac) in found && found[NormalizeMac(uniq[j].mac)] == uniq[j].ip)
    && (forall i, j :: 0 <= i < j < |uniq| ==> NormalizeMac(uniq[i].mac) != NormalizeMac(uniq[j].mac))
  }

  /** `foundDevices` and `uniqueDevices` agree: one key per entry, with the entry's address. */
  lemma {:induction false} ReduceIndexes(results: seq<ScanResult>, prefix: string, n: nat)
    requires n <= |results|
    ensures Indexes(Reduce(results, prefix, n).0, Reduce(results, prefix, n).1)
  {
    var k := 0;
    while k < n
      invariant k <= n
      invariant Indexes(Reduce(results, prefix, k).0, Reduce(results, prefix, k).1)
    {
      var (found, uniq) := Reduce(results, prefix, k);
      var e := results[k];
      if Contributes(e, prefix) && FoundKey(e) !in found {
        ReduceStep(found, uniq, SightingOf(e));
      }
      k := k + 1;
    }
  }

  /** Adding a sighting under a new key keeps `Indexes`. */
  lemma {:induction false} ReduceStep(found: map<string, Ip>, uniq: seq<Sighting>, x: Sighting)
    requires Indexes(found, uniq) && NormalizeMac(x.mac) !in found
    ensures Indexes(found[NormalizeMac(x.mac) := x.ip], uniq + [x])
  {
    var u := uniq + [x];
    assert forall j :: 0 <= j < |uniq| ==> u[j] == uniq[j];
    assert u[|uniq|] == x;
    assert KeysOf(u) == KeysOf(uniq) + {NormalizeMac(x.mac)} by {
      assert forall y :: y in u <==> y in uniq || y == x;
    }
  }

  /**
   * The reduction at the end of `scanNetwork` (renderer.js:628-656): walk the
   * results in their enumeration order and map each normalised MAC to the
   * address of the first reply that carried it.
   */
  method ReduceScan(results: seq<ScanResult>, prefix: string) returns (found: map<string, Ip>, uniq: seq<Sighting>)
    ensures (found, uniq) == Reduce(results, prefix, |results|)
    ensures forall k :: k in found <==> SeenBy(results, prefix, |results|, k)
    ensures forall k :: k in found ==> exists i :: FirstFor(results, prefix, k, i) && found[k] == results[i].0
    ensures forall k :: k in found ==> NormalizeMac(k) == k && StartsWith(found[k], prefix)
  {
    found, uniq := map[], [];
    var n := 0;
    while n < |results|
      invariant 0 <= n <= |results|
      invariant (found, uniq) == Reduce(results, prefix, n)
    {
      ghost var next := Reduce(results, prefix, n + 1);
      assert next == if Contributes(results[n], prefix) && FoundKey(results[n]) !in found
                     then (found[FoundKey(results[n]) := results[n].0], uniq + [SightingOf(results[n])])
                     else (found, uniq);
      var (ip, data) := results[n];
      if data.Some? && HasMac(data.value) {
        var key := NormalizeMac(data.value.mac.value);
        if StartsWith(ip, prefix) && key !in found {
          found := found[key := ip];
          uniq := uniq + [SightingOf(results[n])];
        }
      }
      assert (found, uniq) == next;
      n := n + 1;
    }
    ReduceFound(results, prefix);
  }

  /** Some entry of `results[..n]` contributes the key `k`. */
  ghost predicate SeenBy(results: seq<ScanResult>, prefix: string, n: nat, k: string)
  {
    exists i :: 0 <= i < n && i < |results| && Contributes(results[i], prefix) && FoundKey(results[i]) == k
  }

  /** The keys seen by one entry more. */
  lemma {:induction false} SeenByNext(results: seq<ScanResult>, prefix: string, n: nat, k: string)
    requires n < |results|
    ensures SeenBy(results, prefix, n + 1, k) <==>
      SeenBy(results, prefix, n, k) || (Contributes(results[n], prefix) && FoundKey(results[n]) == k)
  {
    if SeenBy(results, prefix, n + 1, k) && !SeenBy(results, prefix, n, k) {
      var i :| 0 <= i < n + 1 && i < |results| && Contributes(results[i], prefix) && FoundKey(results[i]) == k;
      assert i == n;
    }
  }

  /**
   * `foundDevices` holds exactly the normalised MACs of the replies that
   * carry a MAC at an address under the prefix, each with the address of the
   * first such reply.
   */
  lemma {:induction false} ReduceFound(results: seq<ScanResult>, prefix: string)
    ensures var found := Reduce(results, prefix, |results|).0;
      (forall k :: k in found <==> SeenBy(results, prefix, |results|, k))
      && (forall k :: k in found ==> exists i :: FirstFor(results, prefix, k, i) && found[k] == results[i].0)
      && (forall k :: k in found ==> NormalizeMac(k) == k && StartsWith(found[k], prefix))
  {
    var n := 0;
    var found: map<string, Ip> := map[];
    while n < |results|
      invariant 0 <= n <= |results| && found == Reduce(results, prefix, n).0
      invariant forall k :: k in found <==> SeenBy(results, prefix, n, k)
      invariant forall k :: k in found ==> exists i :: FirstFor(results, prefix, k, i) && i < n && found[k] == results[i].0
      invariant forall k :: k in found ==> NormalizeMac(k) == k && StartsWith(found[k], prefix)
    {
      var next := Reduce(results, prefix, n + 1).0;
      ReduceNext(results, prefix, n);
      FoundKeysStep(results, prefix, n, found, next);
      FoundFirstStep(results, prefix, n, found, next);
      FoundShapeStep(results, prefix, n, found, next);
      found := next;
      n := n + 1;
    }
  }

  /** `foundDevices` after one entry more. */
  lemma {:induction false} ReduceNext(results: seq<ScanResult>, prefix: string, n: nat)
    requires n < |results|
    ensures var found := Reduce(results, prefix, n).0; var e := results[n];
      Reduce(results, prefix, n + 1).0
        == if Contributes(e, prefix) && FoundKey(e) !in found then found[FoundKey(e) := e.0] else found
  {
  }

  /** Every key after one entry more is normalised, with an address under the prefix. */
  lemma {:induction false} FoundShapeStep(results: seq<ScanResult>, prefix: string, n: nat, found: map<string, Ip>,
                                          next: map<string, Ip>)
    requires n < |results| && forall k :: k in found ==> NormalizeMac(k) == k && StartsWith(found[k], prefix)
    requires var e := results[n];
      next == if Contributes(e, prefix) && FoundKey(e) !in found then found[FoundKey(e) := e.0] else found
    ensures forall k :: k in next ==> NormalizeMac(k) == k && StartsWith(next[k], prefix)
  {
    var e := results[n];
    if Contributes(e, prefix) && FoundKey(e) !in found {
      NormalizeMacIdempotent(e.1.value.mac.value);
    }
  }

  /** The keys after one entry more are the keys seen by one entry more. */
  lemma {:induction false} FoundKeysStep(results: seq<ScanResult>, prefix: string, n: nat, found: map<string, Ip>,
                                         next: map<string, Ip>)
    requires n < |results| && forall k :: k in found <==> SeenBy(results, prefix, n, k)
    requires var e := results[n];
      next == if Contributes(e, prefix) && FoundKey(e) !in found then found[FoundKey(e) := e.0] else found
    ensures forall k :: k in next <==> SeenBy(results, prefix, n + 1, k)
  {
    forall k
      ensures k in next <==> SeenBy(results, prefix, n + 1, k)
    {
      SeenByNext(results, prefix, n, k);
    }
  }

  /** The address of each key after one entry more is that of its first entry. */
  lemma {:induction false} FoundFirstStep(results: seq<ScanResult>, prefix: string, n: nat, found: map<string, Ip>,
                                          next: map<string, Ip>)
    requires n < |results| && forall k :: k in found <==> SeenBy(results, prefix, n, k)
    requires forall k :: k in found ==> exists i :: FirstFor(results, prefix, k, i) && i < n && found[k] == results[i].0
    requires var e := results[n];
      next == if Contributes(e, prefix) && FoundKey(e) !in found then found[FoundKey(e) := e.0] else found
    ensures forall k :: k in next ==> exists i :: FirstFor(results, prefix, k, i) && i < n + 1 && next[k] == results[i].0
  {
    forall k | k in next
      ensures exists i :: FirstFor(results, prefix, k, i) && i < n + 1 && next[k] == results[i].0
    {
      if k !in found {
        assert !SeenBy(results, prefix, n, k);
        assert FirstFor(results, prefix, k, n);
      } else {
        var i :| FirstFor(results, prefix, k, i) && i < n && found[k] == results[i].0;
        assert next[k] == results[i].0;
      }
    }
  }
}
