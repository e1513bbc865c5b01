# Syrup dispenser fleet — a Dafny model

This project models the bookkeeping of a pharmacy's fleet of syrup dispensers on the local network, and proves properties of that model.

- **Renderer.** The Electron renderer (`renderer.js`) does the following:
  - keeps the registry of saved dispensers (MAC → address, nickname, pill code) and the set of connected ones;
  - reduces the replies of a /24 scan to a map from normalised MAC to address;
  - reconnects saved dispensers automatically after a scan;
  - sweeps the connected dispensers in a periodic health check;
  - coordinates a dispense: it classifies the selected medicines of a prescription and sends each sendable one to a dispenser carrying its pill code, retrying with backoff;
  - keeps per-medicine and per-patient transmission counters;
  - parses PM3000 prescription text files.
- **Connector.** The older single-device prototype `ArduinoConnector` (`arduino_connector.py`) does the following:
  - resolves the network prefix;
  - scans for `ready` devices;
  - saves devices from the rows of its listboxes;
  - connects with a fallback scan;
  - checks liveness;
  - persists `last_connected`.
- **Network info.** The `get-network-info` handler of the main process (`main.js`) finds the first external IPv4 interface and its subnet prefix.
- **Layout editor.** The `LayoutEditor` (`layout-editor.js`) keeps a component registry with an id counter.

## How the model is built

**State and specification.** Each source component that changes state in place has two parts:
- a value-level specification module: a datatype of the state, and functions from the old state and the inputs to the new state, with lemmas about them;
- a class whose fields are that state, whose methods update them in place, and whose methods each ensure `State() == Spec(old(State()), …)`.

| component | specification module | class |
|---|---|---|
| renderer registry, reconnect, health check and dispense | `Fleet`, `HealthCheck` and `Dispensing` | `RendererApp.Renderer` |
| Python connector | `Connector` | `ConnectorApp.ArduinoConnector` |
| layout editor | `Layout` | `LayoutApp.LayoutEditor` |
| transmission counters and manual status list | `Transmission` | `Transmission.Ledger` and `Transmission.ManualStatusList` |

**Pure functions.** Pure code becomes functions: `Devices`, `Retry`, `Pm3000`, `NetworkInfo`, and the status helpers in `Transmission`.

**Small modules.**
- `Text` holds string helpers with the semantics of JavaScript and Python: trim, split, join, includes, parse.
- `Ordered` holds insertion-ordered keys for JavaScript objects and Python dicts.
- `Wrappers` holds `Option`.

**Inputs.** Network replies, timer expiries, user selections and file contents are inputs.
- A GET is a `Reply`: either `Http(code, body)` or `Fault(error)`.
- A scan is an oracle from address to reply, together with the order in which the replies arrive.
- A POST of the dispense is an oracle from (request, attempt) to an outcome.

## Model

| member | source | states |
|---|---|---|
| Devices.NormalizeMac | renderer.js:566-568 | the result has no `:` or `-` and no lower-case letter, is no longer than the input, and is the input itself when the input is already normal |
| Devices.NormalizeMacIdempotent | renderer.js:566-568 | normalising twice is normalising once |
| Devices.NormalizeMacIgnoresSeparator | renderer.js:566-568 | removing one `:` or `-` anywhere does not change the normal form |
| Devices.RendererScanTargets | renderer.js:605-611 | the scan probes exactly the 255 addresses prefix+1 … prefix+255, in order |
| Devices.CheckIp | renderer.js:571-602 | a reply is kept iff it is HTTP 200 and its body is `ready` or carries a `mac` (a `mac` alone suffices); the kept value is the body |
| Devices.ReduceScan | renderer.js:628-656 | the loop returns `foundDevices` and the entries of `uniqueDevices` as `Reduce` computes them; the keys found are exactly the normalised MACs of replies with a `mac` under the prefix, each with the address of the first such reply in results order, every key normal and every address under the prefix |
| Devices.ReduceIndexes | renderer.js:643-646 | `foundDevices` has exactly the keys of `uniqueDevices`, no key twice, each with its entry's address |
| Devices.ReduceFound | renderer.js:631-656 | a key is found iff some reply under the prefix carries a MAC normalising to it, with the address of the first such reply; keys are normal and addresses under the prefix |
| Retry.MatchesAny | renderer.js:3798-3801 | true iff the error's code equals, or its message contains, one of the names |
| Retry.TimeoutIsRetryable | renderer.js:3789-3801 | an ECONNABORTED code or a message containing `timeout` is retryable |
| Retry.UnlistedCodeNotRetryable | renderer.js:3789-3801 | a code outside the five listed names with an empty message is not retryable |
| Retry.DefaultDelays | renderer.js:3746-3760 | with the configured constants the waits are 1000 ms and then 1500 ms (also lines 3774-3775) |
| Retry.RunFrom | renderer.js:3765-3783 | from attempt k: every attempt before the last failed with a retryable error; the run succeeds iff its last attempt succeeded, and a failure ends with that attempt's error, at the limit or on a non-retryable error; one wait of the backoff delay per retry |
| Retry.Retry | renderer.js:3763-3786 | at most `maxAttempts` attempts, the first success returned, a stop right after a non-retryable error, the last error re-thrown, and attempts-1 waits of 1000·1.5^(k-1) ms |
| Retry.FirstSuccessWins | renderer.js:3767-3769 | when the first attempt succeeds there is one attempt and no wait |
| Retry.DefaultRunWaits | renderer.js:3746-3760 | with the default limit there are at most 3 attempts and the waits are a prefix of [1000, 1500] (also line 3763) |
| Retry.RetryWithBackoff | renderer.js:3763-3786 | the attempt loop returns the outcome, attempt count and waits of `Retry` |
| Transmission.StatusText | renderer.js:104-111 | the unregistered marker shows as itself; a count shows as a decimal that parses back to it; anything else shows `0` |
| Transmission.BadgeClass | renderer.js:113-120 | `bg-dark` iff the marker, `bg-success` iff a non-zero count, otherwise `bg-secondary` |
| Transmission.SuccessIsGreen | renderer.js:113-128 | a success is shown green, and a green non-negative count is a success |
| Transmission.Increment | renderer.js:130-136 | the marker stays the marker; a count n becomes n+1; anything else becomes 1 |
| Transmission.IncrementSucceeds | renderer.js:122-136 | incrementing a non-negative count or a missing status yields a success |
| Transmission.Key | renderer.js:2858 | the key is the receipt, `_`, then the pill code |
| Transmission.KeyInjective | renderer.js:2858 | within one receipt, different pill codes have different keys |
| Transmission.StatusOrZero | renderer.js:2137 | a missing key reads as 0; a present, non-falsy status reads as itself |
| Transmission.Max | renderer.js:2931 | the maximum is an element and bounds every element |
| Transmission.PatientOverall | renderer.js:2909-2939 | the patient status bounds every numeric status of a registered medicine, is one of them or 0, and is 0 when there is none |
| Transmission.PatientUpdate | renderer.js:2902-2956 | with no prescription nothing changes; otherwise only the receipt's patient entry is set, to the overall status |
| Transmission.MedicineUpdate | renderer.js:2855-2899 | a success is protected from an unforced 0; otherwise the key is set and the patient status is recomputed |
| Transmission.SuccessSurvivesZero | renderer.js:2862-2866 | an unforced 0 on a success changes nothing; a forced 0 overwrites it |
| Transmission.UpdateTouchesOneKey | renderer.js:2858-2869 | an update changes no other medicine key |
| Transmission.UpdateKeepsNonNegative | renderer.js:2855-2956 | non-negative counts stay non-negative under updates with non-negative counts |
| Transmission.Ledger.constructor | renderer.js:24-26 | both status tables start empty |
| Transmission.Ledger.UpdatePatientStatus | renderer.js:2902-2956 | the in-place update leaves the state of `PatientUpdate` |
| Transmission.Ledger.UpdateMedicineStatus | renderer.js:2855-2899 | the in-place update leaves the state of `MedicineUpdate` |
| Transmission.ManualStatusList.constructor | renderer.js:139 | the list starts empty |
| Transmission.ManualStatusList.AddManualStatus | renderer.js:141-156 | a sending entry goes to the front, the older entries shift down unchanged, and the list is cut to 10 |
| Pm3000.Lines | renderer.js:1515 | the lines kept are exactly those not blank after trimming |
| Text.ParseInt | renderer.js:1541-1546 | `parseInt` without a radix: NaN iff no digit follows the whitespace and sign, hexadecimal digits counting after `0x` or `0X` |
| Text.ParseIntHex | renderer.js:1541-1546 | `0x` and a run of hexadecimal digits reads as their base-16 value |
| Text.ParseIntString | renderer.js:104-111 | the decimal text `toString` gives any integer count reads back through `parseInt` as that count |
| Pm3000.ParseMedicine | renderer.js:1535-1549 | a line gives a medicine iff it splits into at least 8 backslash-separated fields; the text fields hold no backslash |
| Pm3000.MedicineLineRoundTrip | renderer.js:1535-1549 | parsing a line written from eight fields gives those fields back |
| Pm3000.Medicines | renderer.js:1535-1550 | the medicines are exactly the parses of the lines that parse |
| Pm3000.Insert | renderer.js:1552 | inserting keeps the multiset and keeps the list sorted by line number |
| Pm3000.SortByLine | renderer.js:1552 | the sort is a permutation, sorted by line number when every line number is numeric |
| Pm3000.ReceiptDate | renderer.js:1521-1525 | for a name of at least 8 characters the date is `YYYY-MM-DD` from its first 8 |
| Pm3000.ParsePrescription | renderer.js:1515-1563 | no record iff every line is blank; otherwise the trimmed first line is the patient, and the medicines are a permutation of the parsed lines, sorted |
| Pm3000.MedicinesComeFromLines | renderer.js:1535-1552 | every medicine of a record comes from some medicine line of the file |
| Fleet.Initial | renderer.js:10-33 | the registry starts empty and consistent, with the 15 s interval and a 100 mL limit |
| Fleet.RegisteredCodes | renderer.js:3428-3430 | a pill code is registered iff some saved dispenser carries it |
| Fleet.Persist | renderer.js:1264-1274 | the saved table, in order, and the manually disconnected set are written |
| Fleet.SaveConnection | renderer.js:1118-1153 | missing or blank nickname or pill code changes nothing; otherwise the trimmed entry is stored under the MAC at its insertion position and persisted |
| Fleet.SaveRegisters | renderer.js:1118-1153 | after a save, the saved pill code is registered (also lines 3428-3430) |
| Fleet.DisconnectDevice | renderer.js:1214-1240 | a connected selection leaves the connected set and joins the manually disconnected set; nothing else changes |
| Fleet.DeleteDevice | renderer.js:1243-1262 | a connected selection is refused; otherwise only that MAC leaves the saved table, which is persisted |
| Fleet.LoadConnections | renderer.js:1276-1298 | a missing file changes nothing; otherwise the table and the manual set come from the file |
| Fleet.SaveLoadRoundTrip | renderer.js:1264-1298 | loading what was persisted gives back the table, its order and the manual set |
| Fleet.ManualOnlyGrows | renderer.js:1229-1232 | no registry operation removes a MAC from the manually disconnected set (also lines 1269, 1285) |
| Fleet.ConnectByMac | renderer.js:864-943 | success iff the MAC is saved and its saved address answers 200 with a MAC equal after normalisation; then the entry is written as 연결됨 with pill code or ""; otherwise nothing changes |
| Fleet.ConnectToDeviceAsWritten | renderer.js:1168-1187 | the button clears the reconnect counter under the raw MAC |
| Fleet.ConnectToDevice | renderer.js:1168-1187 | the button connects an unconnected selection and clears its counter under the normalised MAC |
| Fleet.ConnectClearsCounter | renderer.js:1168-1187 | after a successful connect there is no counter for the dispenser (also line 828) |
| Fleet.ConnectAsWrittenKeepsCounter | renderer.js:1185 | as written, a MAC with colons keeps its counter after a successful connect (also line 828) |
| Fleet.ReconnectStep | renderer.js:815-853 | a skipped or unfound MAC changes nothing; the saved table's keys, order, manual set and connected entries are kept |
| Fleet.ReconnectStepOthers | renderer.js:815-853 | one pass touches neither the saved entry nor the connection of another dispenser |
| Fleet.ReconnectTried | renderer.js:830-853 | before trying, the saved address becomes the found one; success connects it and deletes the counter; failure adds 1 to the counter; other counters and MACs are untouched |
| Fleet.Reconnect | renderer.js:790-861 | over the saved MACs in order, no connected entry is changed or lost and the network table is left as it is |
| Fleet.ReconnectKeepsCountersBounded | renderer.js:828-853 | no counter exceeds 3 |
| Fleet.ReconnectLeavesSkippedAlone | renderer.js:815-827 | a connected or manually disconnected MAC keeps its saved entry and its connected membership |
| Fleet.DetectNetworks | renderer.js:418-447 | a prefix from the main process becomes the prefix and the only network, and a scan follows |
| Fleet.SaveNetworkPrefix | renderer.js:493-508 | accepted iff the trimmed input is non-empty and ends with `.`; it is appended only if absent |
| Fleet.ScanResults | renderer.js:605-614 | each arriving result is the address and the `checkIP` outcome of one target |
| Fleet.ScanContributions | renderer.js:631-634 | a result contributes iff it carries a `mac` |
| Fleet.LastListed | renderer.js:545-557 | the last row with both cells filled and that MAC text; none iff there is no such row |
| Fleet.FirstAlike | renderer.js:696-701 | the first connected key in insertion order that normalises to the key; none iff there is none |
| Fleet.Revive | renderer.js:694-701 | only that first entry changes, to 연결됨; the keys are kept |
| Fleet.FoundStepFrame | renderer.js:671-739 | one entry keeps every row's MAC and the connected keys, and changes a connected entry only to 연결됨 under the entry's key |
| Fleet.FoundPassFrame | renderer.js:671-739 | the first phase keeps row MACs and connected keys, makes entries only 연결됨, and leaves an entry whose key no sighting has |
| Fleet.FoundPassShows | renderer.js:671-737 | after the first phase each sighting shows in its MAC's row, with its address and status unless the row showed 시럽 조제 중, or in an appended row |
| Fleet.FoundPassKeepsRows | renderer.js:671-739 | a row whose MAC no sighting carries is untouched by the first phase |
| Fleet.FoundPassAdds | renderer.js:715-737 | every appended row is a sighting's address, MAC and status |
| Fleet.FoundPassKeepsConnected | renderer.js:694-701 | a 연결됨 entry stays 연결됨 through the rest of the first phase |
| Fleet.FoundPassRevives | renderer.js:690-701 | a sighting in a row not showing 시럽 조제 중 leaves the first connected dispenser with its key 연결됨 |
| Fleet.Prune | renderer.js:742-757 | a kept row is either claimed by a sighting and unchanged by this phase, or unclaimed with a connected dispenser and shows 일시적 응답 없음 |
| Fleet.ScanTable | renderer.js:545-757 | only the table and connected entries change; keys are kept; an entry only becomes 연결됨, and one no sighting matches is untouched; the registry stays consistent |
| Fleet.ScanTableShows | renderer.js:669-739 | every sighting has a table row with its address and MAC, showing its reported status unless the row shows 시럽 조제 중 |
| Fleet.ScanTableRevives | renderer.js:690-701 | a sighting whose row does not show 시럽 조제 중 makes the first connected dispenser with its key 연결됨 |
| Fleet.ScanTableMarksUnresponsive | renderer.js:742-753 | an unclaimed row of a connected dispenser stays, showing 일시적 응답 없음 |
| Fleet.ScanTableDropsStale | renderer.js:742-757 | in a table without repeated MACs, every listed row no sighting reports belongs to a connected dispenser and shows 일시적 응답 없음; the others are removed |
| Fleet.ScanShowsSightings | renderer.js:663-778 | after the whole scan, reconnects included, every sighting has a row with its address and MAC |
| Fleet.ScanRevivesConnected | renderer.js:690-778 | after the whole scan a sighting in a row not showing 시럽 조제 중 leaves the first connected dispenser with its key 연결됨 |
| HealthCheck.ProbeWithRetry | renderer.js:2464-2478 | at most 2 probes, the second only after a timeout error; the reply is the last probe's |
| HealthCheck.Classify | renderer.js:2483-2519 | alive iff 200 with a matching MAC; mismatch iff 200 with a different MAC; silent otherwise |
| HealthCheck.CheckAgreesWithConnect | renderer.js:893-918 | the sweep's alive verdict is the connect test (also lines 2483-2491) |
| HealthCheck.CheckStep | renderer.js:2439-2531 | one dispenser: only its entry may change, and it goes as `Checked` says |
| HealthCheck.StepFlags | renderer.js:2436-2531 | one row sets `hasConnectedDevices` iff it probes, and keeps `allConnected` only if its reply carries its MAC |
| HealthCheck.CheckFold | renderer.js:2439-2531 | the sweep removes entries only, keeps the key order consistent, and changes no unvisited dispenser |
| HealthCheck.CheckConnectionStatus | renderer.js:2410-2553 | nothing while checking, dispensing or with dispensing addresses; otherwise only connected entries and the interval change, and the interval stays one of the three |
| HealthCheck.FoldOutcome | renderer.js:2439-2531 | each visited dispenser ends as its own verdict says |
| HealthCheck.FoldFlags | renderer.js:2436-2531 | `hasConnectedDevices` and `allConnected` are the disjunction and conjunction over eligible dispensers |
| HealthCheck.CheckOutcome | renderer.js:2444-2531 | a dispensing dispenser is untouched; otherwise alive → 연결됨, mismatch → removed, silent → 일시적 응답 없음 |
| HealthCheck.CheckInterval | renderer.js:2534-2543 | 5 s → 15 s when all eligible dispensers are alive, 15 s → 5 s when any is not, otherwise unchanged |
| Dispensing.MarkAll | renderer.js:2050-2097 | every listed medicine gets the status, except that 0 leaves a success; other keys are untouched |
| Dispensing.FirstDevice | renderer.js:2079-2091 | the first connected dispenser in insertion order with the pill code (and 연결됨 when asked); none iff there is no such dispenser (also lines 2108-2110) |
| Dispensing.Rendered | renderer.js:1804-1805 | one box per pill code of the prescription, checked iff the code was registered when the view was rendered, disabled iff it was not |
| Dispensing.Ticked | renderer.js:2014-2022 | a code is ticked iff its box is checked, or in automatic mode its box is not disabled |
| Dispensing.RenderedTicksRegistered | renderer.js:1804-1805 | boxes left as rendered tick, in both modes, exactly the codes registered at render time, whatever the registry holds later (also lines 2014-2022) |
| Dispensing.Selected | renderer.js:2025-2029 | the selection is exactly the prescription's medicines whose box is ticked |
| Dispensing.OfClass | renderer.js:2041-2097 | each list holds exactly the selected medicines of its class |
| Dispensing.SourceFilters | renderer.js:2041-2097 | the source's chained filters compute exactly the four classes |
| Dispensing.UnregisteredFilter | renderer.js:2046-2048 | the unregistered filter gives exactly the unregistered class |
| Dispensing.OverLimitFilter | renderer.js:2042-2044 | registered-then-over-limit filtering gives exactly the over-limit class (also lines 2057-2059) |
| Dispensing.ValidFilter | renderer.js:2042-2044 | registered-then-within-limit filtering is one filter on both conditions (also lines 2061-2063) |
| Dispensing.ConnectedFilters | renderer.js:2078-2090 | splitting the valid medicines on a connected dispenser gives exactly the not-connected and sendable classes |
| Dispensing.Partition | renderer.js:2041-2097 | each selected medicine with a numeric total is in exactly one of unregistered, over-limit, not connected and sent |
| Dispensing.PickStep | renderer.js:2107-2117 | a found dispenser was 연결됨 with the code and becomes 시럽 조제 중, its address joining the dispensing set |
| Dispensing.PickUpTo | renderer.js:2107-2120 | one pick per request, each among the connected dispensers; only statuses change |
| Dispensing.PickStatuses | renderer.js:2107-2120 | each pick was 연결됨 with its code and is dispensing afterwards |
| Dispensing.PickKeepsIdle | renderer.js:2107-2120 | a dispenser that is not dispensing was not touched |
| Dispensing.PickDistinct | renderer.js:2107-2120 | no dispenser is picked twice |
| Dispensing.PickUntouched | renderer.js:2107-2120 | an unpicked dispenser keeps its entry |
| Dispensing.PickIps | renderer.js:2116 | the dispensing set gains exactly the picked addresses |
| Dispensing.SendFloor | renderer.js:2152-2162 | only statuses change; a request that picked nothing or got a 200 changes nothing |
| Dispensing.SendStepFails | renderer.js:2157 | the reply that failed leaves its dispenser 연결 끊김 |
| Dispensing.SendStepKeeps | renderer.js:2152-2162 | a reply leaves every dispenser other than a failed one as it was |
| Dispensing.SendFailedLater | renderer.js:2152-2162 | with no later request on the same dispenser, a failed one stays 연결 끊김 to the end |
| Dispensing.SendLedgerUpTo | renderer.js:2132-2162 | the replies change no key outside the sent medicines |
| Dispensing.SendFailed | renderer.js:2152-2162 | after the replies a failed request's dispenser is 연결 끊김 |
| Dispensing.SendSpares | renderer.js:2132-2162 | a dispenser with no failed request keeps its entry |
| Dispensing.SendIps | renderer.js:2152-2162 | exactly the addresses of failed requests leave the dispensing set |
| Dispensing.SettleFloor | renderer.js:2168-2197 | only statuses change and the dispensing set only shrinks; without a delivery the table is unchanged |
| Dispensing.SettleStepDelivers | renderer.js:2182 | the delivered result leaves its dispenser 연결됨 |
| Dispensing.SettleStepKeeps | renderer.js:2168-2197 | a result leaves every dispenser other than a delivered one as it was |
| Dispensing.SettleDeliveredLater | renderer.js:2168-2197 | with no later request on the same dispenser, a delivered one stays 연결됨 to the end |
| Dispensing.SettleLedgerUpTo | renderer.js:2168-2197 | the settle loop changes no key outside the sent medicines |
| Dispensing.SettleDelivered | renderer.js:2182 | after the settle loop a delivered request's dispenser is 연결됨 |
| Dispensing.SettleSpares | renderer.js:2168-2197 | a dispenser with no delivered request keeps its entry |
| Dispensing.SettleIps | renderer.js:2168-2197 | the delivered addresses leave the dispensing set |
| Dispensing.Outcomes | renderer.js:2123-2131 | each request's outcome is whether its retried POST ended with 200 (also line 2132) |
| Dispensing.Dispatch | renderer.js:2107-2197 | only statuses change, one pick per sent medicine, and no other ledger key changes |
| Dispensing.DispatchIps | renderer.js:2107-2197 | every address a request added has left the dispensing set by the end |
| Dispensing.DispatchPicked | renderer.js:2115 | a picked dispenser was 연결됨 with the code and ends 연결됨 if delivered, 연결 끊김 if not (also lines 2157, 2182) |
| Dispensing.DispatchSpares | renderer.js:2107-2197 | an unpicked dispenser keeps its entry |
| Dispensing.StartDispensingInternal | renderer.js:1992-2221 | nothing without a prescription or a connected dispenser; otherwise only statuses, dispensing set, ledger, pause, interval and the automatic-run flag change, and that flag can only be cleared |
| Dispensing.DispenseSelected | renderer.js:2031-2039 | with the pause set, an empty selection returns early |
| Dispensing.SendClassified | renderer.js:2041-2206 | failures are recorded, then the sendable medicines are sent |
| Dispensing.SendAll | renderer.js:2099-2197 | only dispensers, dispensing set and ledger change |
| Dispensing.Finish | renderer.js:2199-2206 | with no dispensing address the pause and the automatic run end and the interval is 15 s; otherwise nothing changes |
| Dispensing.DispenseResumesChecks | renderer.js:1992-2206 | once a medicine is sent, the dispense ends with no dispensing address, no pause, no automatic run and the 15 s interval |
| Dispensing.NothingSentKeepsPause | renderer.js:2006-2012 | when nothing is sent the dispense returns with the pause on and the 60 s interval (also lines 2031-2097) |
| Dispensing.StartDispensing | renderer.js:1949-1989 | an automatic start during an automatic run, or a start with no patient row to take, changes nothing; only an automatic start from the first row can begin an automatic run; the connected dispensers stay the same |
| Dispensing.AutoRunEndsAfterSend | renderer.js:2199-2203 | an automatic start from the first row that sends a medicine ends the automatic run (also lines 1966-1970) |
| Dispensing.AutoRunStuckWithoutDispenser | renderer.js:1999-2002 | an automatic start from the first row with no connected dispenser leaves the automatic run marked, and every later automatic start is refused (also lines 1951-1954, 1970) |
| Dispensing.ManualSendEndsAutoRun | renderer.js:2199-2203 | a hand-started dispense that sends a medicine also clears an automatic run left marked |
| Dispensing.CheckDelayExpired | renderer.js:3404-3413 | the delay's expiry ends the pause and leaves the interval |
| RendererApp.NothingSentStaysSlow | renderer.js:2006-2012 | after a nothing-sent dispense and the delay's expiry the sweep keeps the 60 s interval (also lines 3404-3413, 2534-2543) |
| RendererApp.Renderer.constructor | renderer.js:10-33 | the renderer state starts as `Fleet.Initial` |
| RendererApp.Renderer.SaveConnections | renderer.js:1264-1274 | leaves `Persist` |
| RendererApp.Renderer.SaveConnection | renderer.js:1118-1153 | leaves `Fleet.SaveConnection` |
| RendererApp.Renderer.DisconnectDevice | renderer.js:1214-1240 | leaves `Fleet.DisconnectDevice` |
| RendererApp.Renderer.DeleteDevice | renderer.js:1243-1262 | leaves `Fleet.DeleteDevice` |
| RendererApp.Renderer.LoadConnections | renderer.js:1276-1298 | leaves `Fleet.LoadConnections` |
| RendererApp.Renderer.ConnectToDeviceByMac | renderer.js:864-943 | returns and leaves `ConnectByMac` |
| RendererApp.Renderer.ConnectToDevice | renderer.js:1168-1187 | leaves the corrected `Fleet.ConnectToDevice` |
| RendererApp.Renderer.ReconnectOne | renderer.js:815-853 | one loop step leaves `ReconnectStep` |
| RendererApp.Renderer.TryAt | renderer.js:841-853 | the address update, the probe and the counter update leave the state `ReconnectStep` describes for a tried dispenser |
| RendererApp.Renderer.AttemptAutoReconnect | renderer.js:790-861 | the loop over the saved MACs leaves `Reconnect` and keeps the registry consistent |
| RendererApp.Renderer.DetectNetworks | renderer.js:418-447 | returns and leaves `Fleet.DetectNetworks` |
| RendererApp.Renderer.SaveNetworkPrefix | renderer.js:493-508 | returns and leaves `Fleet.SaveNetworkPrefix` |
| RendererApp.Renderer.ScanNetwork | renderer.js:534-789 | no prefix: nothing found and nothing changes; otherwise the found map is the first-wins reduction of the results, and the state is `ScanTable` of the sightings followed by the reconnect over the saved MACs |
| RendererApp.Renderer.UpdateNetworkRows | renderer.js:663-757 | the two phases leave `ScanTable` and keep the registry consistent |
| RendererApp.Renderer.FoundPhase | renderer.js:669-739 | the loop over the sightings leaves the rows, appended rows and connected entries of `FoundPass` |
| RendererApp.Renderer.ReviveFirst | renderer.js:694-701 | the loop over the connected entries leaves `Revive` |
| RendererApp.Renderer.PrunePhase | renderer.js:742-757 | the loop over the rows returns `Prune` |
| RendererApp.Renderer.CheckOne | renderer.js:2439-2531 | one loop step leaves `CheckStep` |
| RendererApp.Renderer.CheckConnectionStatus | renderer.js:2410-2553 | leaves `HealthCheck.CheckConnectionStatus` |
| RendererApp.Renderer.CheckDelayExpired | renderer.js:3404-3413 | leaves `Dispensing.CheckDelayExpired` |
| RendererApp.Renderer.MarkEach | renderer.js:2050-2097 | the status loops leave `MarkAll` |
| RendererApp.Renderer.PickDevices | renderer.js:2107-2120 | the starts of the requests leave `PickUpTo` |
| RendererApp.Renderer.Deliver | renderer.js:2123-2132 | a request is delivered iff its retried POST ends with 200 |
| RendererApp.Renderer.RecordReply | renderer.js:2132-2162 | one reply leaves `SendFloor` and `SendLedger` |
| RendererApp.Renderer.SendRequests | renderer.js:2123-2132 | the outcomes are `Outcomes` |
| RendererApp.Renderer.RecordReplies | renderer.js:2107-2166 | the replies leave `SendFloorUpTo` and `SendLedgerUpTo` |
| RendererApp.Renderer.SettleResults | renderer.js:2168-2197 | the settle loop leaves `SettleFloorUpTo` and `SettleLedgerUpTo` |
| RendererApp.Renderer.SettleOne | renderer.js:2168-2197 | one settled result leaves `SettleFloor` and `SettleLedger` |
| RendererApp.Renderer.DispatchAll | renderer.js:2099-2197 | leaves `SendAll` |
| RendererApp.Renderer.ResumeChecks | renderer.js:2199-2206 | leaves `Finish` |
| RendererApp.Renderer.StartDispensing | renderer.js:1949-1989 | leaves `Dispensing.StartDispensing` |
| RendererApp.Renderer.StartDispensingInternal | renderer.js:1992-2221 | leaves `Dispensing.StartDispensingInternal` |
| RendererApp.Renderer.DispenseSelected | renderer.js:2031-2039 | leaves `Dispensing.DispenseSelected` |
| RendererApp.Renderer.SendClassified | renderer.js:2041-2206 | leaves `Dispensing.SendClassified` |
| Connector.Initial | arduino_connector.py:15-22 | no current device, no prefix, an empty consistent registry |
| Connector.ParseMac | arduino_connector.py:234 | a MAC is parsed iff the row contains `(MAC: ` (also line 295) |
| Connector.ParseIp | arduino_connector.py:233 | an address is parsed iff the row is not blank |
| Connector.SavedRowRoundTrip | arduino_connector.py:273 | the saved-list row of (nickname, mac) parses back to mac (also line 295) |
| Connector.IpRowRoundTrip | arduino_connector.py:203 | the scan row of (ip, mac) parses back to ip and mac when ip has no blanks (also lines 233-234) |
| Connector.RowContainsMac | arduino_connector.py:203 | a row contains its MAC and is not blank (also line 325) |
| Connector.FirstContaining | arduino_connector.py:212-218 | the first row containing the text, or none iff no row contains it (also lines 324-325) |
| Connector.SavedRows | arduino_connector.py:269-273 | one row per saved MAC, in insertion order, with its nickname |
| Connector.SavedRowSelects | arduino_connector.py:273 | selecting row i of the saved list selects the i-th saved MAC (also lines 294-295) |
| Connector.LastRecord | arduino_connector.py:261-264 | `last_connected` is written iff there is a current device, as its MAC and address |
| Connector.SaveConnections | arduino_connector.py:257-267 | only the file changes: the saved dict and `last_connected` |
| Connector.LoadConnections | arduino_connector.py:245-256 | a missing file clears `last_connected`; otherwise the dict and `last_connected` come from the file and the saved list is rebuilt |
| Connector.SaveLoadRoundTrip | arduino_connector.py:245-267 | loading what was saved gives back the dict, its order and the current device as `last_connected` |
| Connector.NetworkOf | arduino_connector.py:110 | the network ends with `.` |
| Connector.NetworkOfPrefix | arduino_connector.py:110 | the network is the address without its last dot-separated part |
| Connector.Networks | arduino_connector.py:105-112 | no duplicates, and a network is listed iff some non-loopback IPv4 address gives it |
| Connector.NetworksNone | arduino_connector.py:105-112 | with no qualifying address the list is empty |
| Connector.NetworksHead | arduino_connector.py:105-112 | the first network is that of the first qualifying address |
| Connector.DetectNetworks | arduino_connector.py:99-127 | an exception opens the dialog; otherwise the networks are listed, and the first becomes the prefix and is scanned iff some address qualifies |
| Connector.DetectPicksFirst | arduino_connector.py:114-119 | the first qualifying address's network is the prefix |
| Connector.OnOk | arduino_connector.py:139-150 | accepted iff the trimmed input is non-empty and ends with `.`; appended only if absent |
| Connector.ReadyBody | arduino_connector.py:175-184 | a reply is kept iff HTTP 200 with status `ready` |
| Connector.Results | arduino_connector.py:186-196 | one result per arriving probe of prefix+1 … prefix+254 |
| Connector.FoundFold | arduino_connector.py:198-203 | the scan completes iff every kept reply carries a `mac` |
| Connector.FoundRows | arduino_connector.py:198-203 | the rows are exactly those of the kept replies |
| Connector.FoundDevice | arduino_connector.py:198-203 | a MAC is found iff some kept reply reports it, at the address of the last such reply |
| Connector.ScanCore | arduino_connector.py:168-203 | no prefix changes nothing; otherwise the discovered list is refilled from the results |
| Connector.ScanFindsReady | arduino_connector.py:175-203 | a MAC is found iff some address prefix+1 … prefix+254 answers `ready` with it |
| Connector.ScanKeepsLater | arduino_connector.py:198-203 | a found MAC maps to the address of its last reply, which is in 1 … 254 and answered `ready` |
| Connector.SaveConnection | arduino_connector.py:220-243 | no selection or an empty or placeholder nickname changes nothing; otherwise the row's (ip, trimmed nickname) is stored under its MAC, saved and listed |
| Connector.SaveFromScanRow | arduino_connector.py:220-243 | saving a scan row stores exactly that row's address under its MAC (also line 203) |
| Connector.SelectedMac | arduino_connector.py:288-297 | a MAC is selected iff the row parses and the MAC is saved |
| Connector.Adopt | arduino_connector.py:303-314 | the MAC and address become current and are saved as `last_connected` |
| Connector.AdoptListed | arduino_connector.py:322-353 | the first listed row with the MAC replaces its saved address and becomes current; no row clears the current device |
| Connector.ConnectToDevice | arduino_connector.py:286-353 | nothing without a saved selection; only the selected entry's address may change, and the current device becomes that MAC or none |
| Connector.ConnectOutcome | arduino_connector.py:297-353 | a matching stored address connects; otherwise a listed row supplies the new address; otherwise the current device is cleared |
| Connector.ConnectRaises | arduino_connector.py:286-353 | a connect raises only with a selection, always when the row has no MAC, changes nothing beyond the listed rows when it raises, and raises only after the stored address failed |
| Connector.DisconnectDevice | arduino_connector.py:275-284 | acts only with a current address, then clears both and saves |
| Connector.ConnectionCheck | arduino_connector.py:355-384 | a 200 keeps the device without a MAC check; a non-200 or error records `last_connected` and clears the device |
| Connector.DemotionNotPersisted | arduino_connector.py:364-370 | the `last_connected` just recorded by a demotion is not what the file holds (also lines 257-267) |
| Connector.LastRow | arduino_connector.py:386-399 | the saved-list row of a saved `last_connected` MAC |
| Connector.LastRowExists | arduino_connector.py:269-273 | a saved `last_connected` MAC has a row (also lines 386-399) |
| Connector.RestoreLastConnection | arduino_connector.py:386-399 | connects through the row of a saved `last_connected` MAC, otherwise nothing |
| Connector.TailRow | arduino_connector.py:206-218 | the reconnect happens only with no current device and a found, saved `last_connected` MAC |
| Connector.ScanNetwork | arduino_connector.py:168-218 | the scan, then the reconnect through the `last_connected` row when the gate holds |
| Connector.ScanReconnectGate | arduino_connector.py:206-218 | any change beyond the list requires no current device and a found, saved `last_connected` MAC |
| Connector.ScanRaises | arduino_connector.py:168-218 | a scan raises only with a prefix, always when the scan fails, and a raising scan changes nothing beyond the listed rows |
| Connector.ScanUndoesDisconnect | arduino_connector.py:206-218 | after a hand disconnect, a scan reconnects the last device (also lines 275-284) |
| Connector.ScanAsWritten | arduino_connector.py:168-218 | as written: the tail connect's fallback scans again; the saved keys only grow (also line 322) |
| Connector.ConnectAsWritten | arduino_connector.py:286-353 | as written: the fallback runs the full scan, tail included |
| Connector.ScanAsWrittenUnbounded | arduino_connector.py:206-218 | a moved `last_connected` device makes the scan recurse without bound (also line 322) |
| Connector.ScanAdoptsMovedDevice | arduino_connector.py:206-218 | corrected: a scan adopts a moved `last_connected` device at its new address (also lines 322-343) |
| ConnectorApp.ArduinoConnector.constructor | arduino_connector.py:15-22 | the fields start as `Connector.Initial` |
| ConnectorApp.ArduinoConnector.SaveConnections | arduino_connector.py:257-267 | leaves `Connector.SaveConnections` |
| ConnectorApp.ArduinoConnector.UpdateSavedList | arduino_connector.py:269-273 | the loop rebuilds the saved list as `SavedRows` and nothing else |
| ConnectorApp.ArduinoConnector.LoadConnections | arduino_connector.py:245-256 | leaves `Connector.LoadConnections` |
| ConnectorApp.ArduinoConnector.DetectNetworks | arduino_connector.py:99-127 | the scan runs when an address qualifies; the dialog opens iff none does or the scan raises inside the `try` |
| ConnectorApp.ArduinoConnector.CollectNetworks | arduino_connector.py:105-112 | the loop over the addresses returns `Networks` |
| ConnectorApp.ArduinoConnector.OnOk | arduino_connector.py:139-150 | leaves `Connector.OnOk`, then scans when accepted |
| ConnectorApp.ArduinoConnector.OnNetworkChanged | arduino_connector.py:158-161 | the chosen network becomes the prefix and is scanned |
| ConnectorApp.ArduinoConnector.FindRow | arduino_connector.py:212-218 | the loop returns `FirstContaining` (also lines 324-325) |
| ConnectorApp.ArduinoConnector.ScanCore | arduino_connector.py:168-203 | the loop over the results leaves `Connector.ScanCore` |
| ConnectorApp.ArduinoConnector.ScanNetwork | arduino_connector.py:168-218 | leaves `Connector.ScanNetwork` and reports whether it raised, as `ScanRaises` says |
| ConnectorApp.ArduinoConnector.SaveConnection | arduino_connector.py:220-243 | leaves `Connector.SaveConnection` |
| ConnectorApp.ArduinoConnector.ConnectToDevice | arduino_connector.py:286-353 | leaves `Connector.ConnectToDevice` and reports whether it raised, as `ConnectRaises` says |
| ConnectorApp.ArduinoConnector.DisconnectDevice | arduino_connector.py:275-284 | leaves `Connector.DisconnectDevice` |
| ConnectorApp.ArduinoConnector.ConnectionCheck | arduino_connector.py:355-384 | leaves `Connector.ConnectionCheck` |
| ConnectorApp.ArduinoConnector.RestoreLastConnection | arduino_connector.py:386-399 | leaves `Connector.RestoreLastConnection` |
| NetworkInfo.Prefix | main.js:82-83 | the prefix ends with `.`; an address with at most three parts gives itself plus `.` |
| NetworkInfo.FirstNet | main.js:79-90 | none iff no address of the interface qualifies |
| NetworkInfo.GetNetworkInfo | main.js:75-97 | an exception gives null |
| NetworkInfo.FirstNetWins | main.js:79-90 | the first qualifying address of an interface answers |
| NetworkInfo.FirstInterfaceWins | main.js:78-90 | the first qualifying address in enumeration order answers, with its interface name, address and netmask unchanged |
| NetworkInfo.NullWhenNoneQualifies | main.js:78-93 | null iff no address of any interface qualifies |
| NetworkInfo.PrefixShape | main.js:82-83 | with at least three dots the prefix is the address up to its third dot, splitting into the first three parts and an empty one |
| NetworkInfo.PrefixAgreesWithConnector | main.js:82-83 | for a dotted quad the prefix is the connector's network |
| Layout.IdInjective | layout-editor.js:77-78 | different counter values give different ids |
| Layout.Defaults | layout-editor.js:93-141 | the empty map iff the kind is not one of the six in the table |
| Layout.Deselect | layout-editor.js:291-300 | a truthy selection is cleared; nothing else changes |
| Layout.Select | layout-editor.js:278-289 | the id becomes the selection |
| Layout.Add | layout-editor.js:76-91 | the counter goes up by 1; one component `component_<counter>` with the kind, position and defaults is appended and selected |
| Layout.FindById | layout-editor.js:544 | the first component with the id, or none iff there is none |
| Layout.Duplicate | layout-editor.js:543-561 | an unknown id changes nothing; otherwise a copy with a new id, the same kind and properties, at x+20, y+20 is appended and selected |
| Layout.Delete | layout-editor.js:563-576 | exactly the components with other ids remain; counter and storage are kept; no selection |
| Layout.Save | layout-editor.js:588-596 | the components are stored |
| Layout.Load | layout-editor.js:598-620 | with stored data, the components are loaded and the counter is their number |
| Layout.Reset | layout-editor.js:622-638 | when confirmed: no components, counter 0, storage removed |
| Layout.Initial | layout-editor.js:3-14 | the constructor loads what is stored |
| Layout.AddKeepsValid | layout-editor.js:76-91 | under the counter invariant, add never reuses an id |
| Layout.DuplicateKeepsValid | layout-editor.js:543-561 | under the counter invariant, the copy has a new id and the same kind and properties |
| Layout.FilterDropsOne | layout-editor.js:569 | with unique ids, the filter removes one component when the id exists, none otherwise |
| Layout.DeleteKeepsValid | layout-editor.js:563-576 | delete keeps the ids unique, removes the id and shrinks by the number removed |
| Layout.ResetIsEmpty | layout-editor.js:622-638 | a confirmed reset is empty and valid with no selection |
| Layout.SaveLoadRoundTrip | layout-editor.js:588-620 | loading what was saved gives the components back, with the counter at their number |
| Layout.LoadCanReuseId | layout-editor.js:603-604 | loading one component `component_2` and adding one gives two components with the same id (also lines 76-78) |
| Layout.LoadKeepsValid | layout-editor.js:598-620 | a load of unique ids whose suffixes do not exceed their number restores the invariant |
| LayoutApp.LayoutEditor.constructor | layout-editor.js:3-14 | the fields start as `Layout.Initial` |
| LayoutApp.LayoutEditor.DeselectComponent | layout-editor.js:291-300 | leaves `Deselect` |
| LayoutApp.LayoutEditor.SelectComponent | layout-editor.js:278-289 | leaves `Select` |
| LayoutApp.LayoutEditor.AddComponent | layout-editor.js:76-91 | leaves `Add` and keeps the counter invariant |
| LayoutApp.LayoutEditor.DuplicateComponent | layout-editor.js:543-561 | leaves `Duplicate` and keeps the counter invariant |
| LayoutApp.LayoutEditor.DeleteComponent | layout-editor.js:563-576 | leaves `Delete` and keeps the counter invariant |
| LayoutApp.LayoutEditor.SaveLayout | layout-editor.js:588-596 | leaves `Save` |
| LayoutApp.LayoutEditor.LoadLayout | layout-editor.js:598-620 | leaves `Load` |
| LayoutApp.LayoutEditor.ResetLayout | layout-editor.js:622-638 | leaves `Reset`; a confirmed reset is valid |

## Left out

- Rendering is not modelled: the DOM, tables, badges, modals, bootstrap and flatpickr in the renderer, the tkinter widgets, message boxes and dialogs of the connector, and the layout editor's rendering, drag and drop and property panel. Only the listbox row texts that carry data are kept.
- HTTP, IPC and file I/O are inputs (`Reply` values, probe oracles and stored-file records).
- `Fleet.LoadConnections`: `None` is a missing file. It also stands for an unreadable or `null` file, because `loadConnections` catches that error and changes nothing (renderer.js:1296-1298). A `{}` file is a record without fields and empties the saved table (renderer.js:1284).
- `Connector.LoadConnections`: `None` is a missing file only, the one error `load_connections` catches (arduino_connector.py:253). A `{}` file gives an empty table and no `last_connected`. The connector crashes on an unreadable or `null` file, or on a `null` under `connections`; the model has no input for these.
- Timers are not modelled: `setInterval`, `root.after`, the 30 s restore of the re-send paths, the auto-dispense delays and the folder poll. The one timer with state, the 60 s check delay, is an explicit event (`CheckDelayExpired`).
- Concurrency is folded in order:
  - the scan fan-out in both programs is a fold over the arrival order of the replies;
  - the parallel dispense runs as three sequential phases;
  - nested scans within one operation see the same oracle.
- Floating point is not modelled: NaN and Infinity in the status helpers, the Yupharm XML branch, the network-quality functions, and the random fraction of manual ids.
- `Transmission.ManualStatusList.AddManualStatus`: the id is the time parameter; the random fraction added to it is left out.
- `updateManualStatus`, the re-send paths (`retrySelectedMedicines`, `retryFailedMedicines`), `attemptInitialConnection`, the manual rows and the settings are not modelled.
- `HealthCheck.CheckStep`: each row is checked against its own dispenser. The source looks the dispenser up by address, which is the same when addresses are distinct.
- `Dispensing.StartDispensingInternal`: the outer `catch` (renderer.js:2210-2219), which also clears the automatic-run flag, is not modelled, because no modelled step throws.
- `Dispensing.StartDispensing`: the folder poll that starts automatic dispensing when the flag is clear (renderer.js:2661) is a timer and is left out; the 200 ms wait before the automatic run starts is folded away.
- `Text.UpperChar`: upper-cases ASCII letters only. JavaScript's `toUpperCase` in `normalizeMac` also maps non-ASCII letters, so `Devices.NormalizeMac` agrees with the source only on ASCII text, which MAC addresses are.
- `Text.ParseInt`: digits are read exactly; the loss of precision of `parseInt` beyond 2^53 is floating point and is not modelled.
- `Fleet.ScanTable`: the second phase visits the rows in table order, where the source walks `existingDevices` in `Map` order; each row is changed or removed at most once, so the table is the same. The filler rows that keep five lines, and the inputs and save button of an appended row, are rendering.
- `Fleet.ScanTableDropsStale`: stated for tables without repeated MACs. With repeats, only the last listed row of a MAC is in `existingDevices`, and the model keeps the earlier ones as they are, as the source does.
- `Connector.ConnectToDevice`: the fallback scan does not run the post-scan reconnect; the corrected model is the one in "Findings". The as-written recursion is `Connector.ConnectAsWritten`.
- `Connector.DetectNetworks`: returns whether a scan follows; the class method runs it.
- `ConnectorApp.ArduinoConnector.constructor`: does not run the start-up chain of load, detect, schedule and restore. Each step is its own method.
- Trimming uses ASCII whitespace only, not the Unicode whitespace of JavaScript and Python.
- Layout coordinates are integers. `getDefaultProperties` ignores keys inherited through the prototype (such as `constructor`).
- The backend server and the release and token scripts are not part of this model.

## Findings

| source | as written | input that shows it | evidently intended | confidence | as-written member | corrected member |
|---|---|---|---|---|---|---|
| renderer.js:1185 | `connectToDevice` deletes `autoReconnectAttempted[mac]` under the raw MAC, while the counter is keyed by the normalised MAC (line 828) | saved MAC `aa:bb:cc:dd:ee:ff`, connected by the button after failed reconnects | a manual connect clears the reconnect counter | not executed | Fleet.ConnectAsWrittenKeepsCounter | Fleet.ConnectClearsCounter |
| arduino_connector.py:206-218 | after a scan with no current device, the connect (line 322) through the `last_connected` row falls back to `scan_network`, which runs the same connect again | `last_connected` MAC saved at a stale address and found elsewhere by the scan | the fallback scan finds the new address and connects once | not executed | Connector.ScanAsWrittenUnbounded | Connector.ScanAdoptsMovedDevice |
