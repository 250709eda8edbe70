# WiFiConnect captive portal, modelled in Dafny

The portal runs on a headless Linux device. It brings up an open Wi-Fi access
point ("Setup-Robot-WiFi") with NetworkManager's `nmcli`, serves a page that
lists nearby networks, and joins the network the operator picks. Once joined,
it tears the access point down. This project models the repository's own logic
in the `WiFiConnect` class and proves properties of it:

- **The scan parser** (`scan_wifi_networks`). It reads the terse output of
  `nmcli -t -f SSID,SIGNAL,SECURITY device wifi list` into
  `{ssid, signal, security}` records, drops empty and repeated SSIDs, and
  sorts by signal, strongest first. `Portal.WiFiConnect.ScanWifiNetworks` runs
  the loop of `scan_wifi_networks`, with its `networks` list and `seen_ssids` set. It is proved
  equal to `Scan.ScanResult`, and `Scan` proves what that function promises:
  - each SSID is non-empty and stripped;
  - SSIDs are pairwise distinct;
  - each kept record is the first line with its SSID;
  - every non-empty SSID that appears is kept;
  - the order is non-increasing by signal;
  - equal signals keep their order.
- **The join** (`connect_to_network`). This covers the command line, with
  `password <pw>` only for a non-empty password, and the mapping from the join's
  outcome to the boolean result and the status change.
- **The portal state.** This covers the `is_hotspot_active` and
  `connection_status` fields, the `create_hotspot` and `shutdown_hotspot`
  pipelines, and the `/connect` handler with its validation gate.

External commands are inputs. Each nmcli invocation is a `Portal.Run` value:
`Exited(code)`, `TimedOut` or `Raised`. Python's `subprocess.TimeoutExpired` is
an exception like any other, so a `TimedOut` for a command that has no timeout
acts like `Raised`. Every method that changes the portal's fields returns the
command lines it ran, in order. So "the handler made no adapter call" is stated
as an empty trace. The scan method takes nmcli's exit status and output and
returns only the networks.

Files: `wrappers.dfy` (Option, Result), `text.dfy` (Python's `strip`, `split`,
`isdigit` and `int` on strings), `scan.dfy` (the scan specification and its
lemmas), `portal.dfy` (the `WiFiConnect` class, command lines, `/connect`).

## Behaviour of the code worth knowing

- De-duplication happens before the sort. The record kept for an SSID is
  therefore the first one in nmcli's output, whatever the signals of later
  records with the same SSID (`Scan.DedupExample`).
- The signal field is parsed only when it is all ASCII digits. Any other field,
  a negative reading such as `-40` included, becomes -100
  (`Scan.ParseSignalNegative`).
- The security field is checked for emptiness before it is stripped. A field of
  blanks therefore gives `""`, not `"Open"` (`Scan.ParseSecurity`).
- `connect_to_network` sets the status to connected as soon as the join exits
  with 0, and only then runs the IP check. If that check raises, the method
  returns false with the status already connected, and `/connect` reports
  failure (`Portal.WiFiConnect.ConnectToNetwork`).
- `shutdown_hotspot` ignores the exit statuses of `down` and `delete`. But an
  exception from either command skips clearing the flag
  (`Portal.WiFiConnect.ShutdownHotspot`).
- Nothing stops a second successful `/connect` from arming a second teardown.
  `teardownsArmed` counts one per success.
- The embedded page posts to `/shutdown`, and the code defines no route by
  that name.
- The scan splits each line on every `:`. An SSID that contains `:` is
  therefore cut at that character, and the remaining fields shift
  (`Scan.ParseFields`).

## Model

| member | source | states |
|---|---|---|
| `Text.Strip` | wifi_connect.py:568 | `str.strip()`: the result is the infix of the input after its leading white space, only white space is cut from either end, and the result neither starts nor ends with white space |
| `Text.StripIdempotent` | wifi_connect.py:568 | stripping an already stripped SSID changes nothing |
| `Text.Split` | wifi_connect.py:566 | `str.split(':')` gives one piece more than there are separators and no piece contains the separator |
| `Text.JoinSplit` | wifi_connect.py:566 | joining the pieces of a split with the separator gives back the line |
| `Text.SplitJoin` | wifi_connect.py:566 | splitting the join of separator-free pieces gives back the pieces |
| `Text.DecimalValue` | wifi_connect.py:569 | `int()` of a digit string is a natural number below 10 to the power of its length |
| `Text.DecimalShowNat` | wifi_connect.py:569 | reading back the decimal digits of `n` gives `n` |
| `Text.DecimalLeadingZero` | wifi_connect.py:569 | a leading zero does not change the value |
| `Scan.ParseSignal` | wifi_connect.py:569 | the signal is non-negative exactly when the field is all ASCII digits, and -100 otherwise |
| `Scan.ParseSignalShowNat` | wifi_connect.py:569 | a field that writes `n` in decimal gives signal `n` |
| `Scan.ParseSignalNegative` | wifi_connect.py:569 | a field starting with `-` gives -100 |
| `Scan.ParseSecurity` | wifi_connect.py:570 | an empty field gives "Open" and a non-empty field gives its strip, so the label is "Open" or stripped, and it is empty exactly when the field is non-empty and all white space |
| `Scan.ParseLine` | wifi_connect.py:563-570 | a line yields a record exactly when it is non-empty and has at least two `:`; the record's SSID is stripped and `:`-free, and its signal is non-negative or -100; `Scan.ParseFields` gives the record itself, read from the first three fields |
| `Scan.ParseFields` | wifi_connect.py:566-570 | a line of three or more `:`-free fields yields the stripped first field as SSID, the parsed second as signal and the parsed third as security; later fields are ignored |
| `Scan.ParseTerseLine` | wifi_connect.py:555-570 | an unescaped terse line written from a network with a non-negative signal and a non-empty stripped label reads back as that network |
| `Scan.Lines` | wifi_connect.py:562 | the output splits into at least one line and no line holds a newline |
| `Scan.Records` | wifi_connect.py:562-570 | the records come from the lines in order, each with a stripped SSID and a signal that is non-negative or -100 |
| `Scan.RecordsFromLines` | wifi_connect.py:562-570 | a record is in the result exactly when some line parses to it, so blank and short lines contribute nothing |
| `Scan.Dedup` | wifi_connect.py:573-579 | every kept record comes from the input and has a non-empty SSID |
| `Scan.DedupDistinct` | wifi_connect.py:573-579 | the kept records have pairwise distinct SSIDs |
| `Scan.DedupKeptIsFirst` | wifi_connect.py:560-579 | every kept record is the first record in the input with its SSID |
| `Scan.DedupFirstIsKept` | wifi_connect.py:560-579 | the first record with a given non-empty SSID is kept |
| `Scan.DedupComplete` | wifi_connect.py:573-579 | every non-empty SSID of the input is the SSID of some kept record |
| `Scan.DedupExample` | wifi_connect.py:573-579 | of two records for one SSID the first survives whatever the signals, and an empty SSID is dropped |
| `Scan.SortBySignal` | wifi_connect.py:582 | the result is a permutation of the input, ordered by non-increasing signal |
| `Scan.SortStable` | wifi_connect.py:582 | the records with any one signal come out in the order they went in, as Python's stable sort with `reverse=True` keeps them |
| `Scan.StableSortUnique` | wifi_connect.py:582 | two sequences that are both sorted and keep the order within each signal are equal, so the sort is the only stable sort |
| `Scan.SortDistinct` | wifi_connect.py:582 | sorting keeps SSIDs pairwise distinct |
| `Scan.SortMembers` | wifi_connect.py:582 | sorting neither adds nor loses records, so the set of SSIDs is unchanged |
| `Scan.SortExample` | wifi_connect.py:582 | two equal signals keep their order behind a stronger one |
| `Scan.SortPair` | wifi_connect.py:582 | a weaker record followed by a stronger one comes out stronger first |
| `Scan.Kept` | wifi_connect.py:560-579 | the records of the parsed lines, in output order, keeping the first record of each non-empty SSID (its properties are the four `Dedup` lemmas) |
| `Scan.ScanResult` | wifi_connect.py:551-587 | the scan's networks: none after a non-zero exit, otherwise the kept records sorted strongest first (its properties are `ScanResultOrder` and `ScanResultContents`) |
| `Scan.ScanResultOrder` | wifi_connect.py:551-587 | the scan result is empty after a non-zero exit, sorted strongest first, free of repeated SSIDs, and keeps equal signals in output order |
| `Scan.ScanResultContents` | wifi_connect.py:551-587 | every reported network has a non-empty stripped SSID and a parsed signal and is the first line for its SSID; every first line with a non-empty SSID is reported |
| `Portal.WiFiConnect.ScanWifiNetworks` | wifi_connect.py:551-587 | the loop with its list and seen-set followed by the sort computes `ScanResult`, and the result is sorted, has distinct non-empty stripped SSIDs and is stable |
| `Portal.JoinCommand` | wifi_connect.py:601-613 | the command is `nmcli device wifi connect <ssid>`, followed by `password <pw>` exactly when the password is non-empty, and it reads back as the SSID and password |
| `Portal.JoinArgsExact` | wifi_connect.py:601-613 | every command line that reads back as an SSID and password is the join command built from them |
| `Portal.JoinTrace` | wifi_connect.py:594-627 | the profile delete always runs; the join runs unless the delete raised and carries the SSID and password; the device query `nmcli device show <iface>` runs exactly when the join exited with 0 |
| `Portal.SetupStepsRun` | wifi_connect.py:650-682 | all four setup commands run exactly when the delete completes and the add and the modify exit with 0 |
| `Portal.ConnectTarget` | wifi_connect.py:61-66 | a request passes exactly when it has a non-empty SSID; a missing or empty SSID gives "SSID is required", a malformed body its own error; the SSID is passed on, and so is the request's password, "" when absent |
| `Portal.WiFiConnect.constructor` | wifi_connect.py:30-31 | a new portal has no active hotspot, status disconnected and no teardown armed |
| `Portal.WiFiConnect.ConnectToNetwork` | wifi_connect.py:589-642 | returns true exactly when the join exits with 0 and nothing raises; status becomes connected exactly when the join exits with 0; otherwise it is unchanged |
| `Portal.WiFiConnect.CreateHotspot` | wifi_connect.py:644-693 | true exactly when the add, modify and up exit with 0 after a delete that did not raise; only then is the flag set; a failure leaves it as it was; the commands stop at the first failure |
| `Portal.WiFiConnect.ShutdownHotspot` | wifi_connect.py:695-711 | the flag is cleared whatever the exit statuses of down and delete, unless one of them raises |
| `Portal.WiFiConnect.ConnectWifi` | wifi_connect.py:57-92 | a refused request gets its error, runs no command and changes nothing; a successful join arms exactly one teardown and echoes the SSID with the success message; a failed join replies with the join error and arms none |

## Left out

- The nmcli processes themselves and NetworkManager's behaviour. They are external programs; their outcomes are `Run` arguments and the scan's output is a string argument.
- The pauses (`time.sleep` at wifi_connect.py:599, 622 and 715) and the 30-second timeout's timing. Only "it timed out" (`TimedOut`) is modelled.
- `shutdown_hotspot_delayed` (wifi_connect.py:713-718): the daemon thread, its delay and `os._exit`. These are concurrency and process exit; the model counts teardowns armed (`teardownsArmed`).
- Flask routing, `request.get_json` and `jsonify`. The request body is a `ConnectRequest`; the reply is a `ConnectReply` rather than JSON text.
- JSON values of other types for `ssid` or `password`. The model covers strings, absence and null. A truthy non-string SSID would make `connect_to_network` raise inside and return false.
- `Portal.WiFiConnect.ScanWifiNetworks`: an exception from `subprocess.run` other than a non-zero exit propagates out of the method to the `/scan` route. This path is not modelled; the method takes an exit status and an output.
- The `/scan` route (wifi_connect.py:47-55) and `/status` route (wifi_connect.py:94-101). They only wrap the scan result in an envelope and read the two fields.
- `render_portal_page` and the `/` and `/portal` routes (wifi_connect.py:39-45 and 103-549). These are the embedded HTML, CSS and JavaScript page.
- The `"IP4.ADDRESS"` check on the device query's output (wifi_connect.py:627). It only chooses a log line.
- Logging, `run()` (wifi_connect.py:720-742) and the root-privilege check (wifi_connect.py:744-754). These are startup plumbing and environment checks.
- `Scan.ParseSignal`: `str.isdigit()` is taken as ASCII digits only. Python also accepts other Unicode digits, some of which `int()` then rejects.
