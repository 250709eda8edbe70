/**
 * The `WiFiConnect` object: its two state fields (`is_hotspot_active` and
 * `connection_status`), the nmcli step sequences that change them, the scan
 * method and the `/connect` handler. Every nmcli call that a method makes is
 * given as a `Run` argument saying how it ended (the scan takes nmcli's exit
 * status and output instead), and every method that changes the portal's
 * fields returns the command lines it ran, in order, so that "no adapter call
 * was made" is an empty trace.
 */
module Portal {
  import opened Wrappers
  import opened Text
  import opened Scan

  /** A command line, the argument list handed to `subprocess.run`. */
  type Argv = seq<string>

  /** How one external command ended. */
  datatype Run =
    | Exited(code: int)  // the process ran and exited with this status
    | TimedOut           // `subprocess.TimeoutExpired`; only the join command has a timeout
    | Raised             // any other exception, such as nmcli not being found

  /** The command ran and exited with status 0. */
  predicate Succeeded(r: Run) {
    r == Exited(0)
  }

  /** The command ran to its end without an exception, whatever its exit status. */
  predicate Completed(r: Run) {
    r.Exited?
  }

  /** The two values `connection_status` ever takes: "disconnected" and "connected". */
  datatype ConnectionStatus = Disconnected | Connected

  // ---------------------------------------------------------------------------
  // Command lines
  // ---------------------------------------------------------------------------

  /** The name of the connection profile that holds the temporary access point. */
  const HotspotProfile: string := "Hotspot"

  /** Removes any saved profile named after the network about to be joined. */
  function DeleteProfileCommand(ssid: string): Argv {
    ["nmcli", "connection", "delete", "id", ssid]
  }

  /** The words in front of the target network in a join command. */
  const JoinVerb: Argv := ["nmcli", "device", "wifi", "connect"]

  /**
   * The join command: the target network, followed by `password <password>`
   * only when the password is not empty.
   */
  function JoinCommand(ssid: string, password: string): (argv: Argv)
    ensures |argv| >= 5 && argv[..5] == JoinVerb + [ssid]
    ensures password != [] ==> argv[5..] == ["password", password]
    ensures password == [] ==> |argv| == 5
    ensures JoinArgs(argv) == Some((ssid, password))
  {
    if password != [] then JoinVerb + [ssid, "password", password] else JoinVerb + [ssid]
  }

  /**
   * Reads a join command back: the target network and the password it carries,
   * "" when it carries none; `None` for any other command line.
   */
  function JoinArgs(argv: Argv): Option<(string, string)> {
    if |argv| == 5 && argv[..4] == JoinVerb then Some((argv[4], []))
    else if |argv| == 7 && argv[..4] == JoinVerb && argv[5] == "password" && argv[6] != [] then Some((argv[4], argv[6]))
    else None
  }

  /** Only join commands are read back, and each one is the command built from what it carries. */
  lemma JoinArgsExact(argv: Argv)
    ensures JoinArgs(argv).Some? ==> JoinCommand(JoinArgs(argv).value.0, JoinArgs(argv).value.1) == argv
  {
    if JoinArgs(argv).Some? {
      var (ssid, password) := JoinArgs(argv).value;
      if |argv| == 5 {
        assert argv == argv[..4] + [argv[4]];
      } else {
        assert argv == argv[..4] + [argv[4], argv[5], argv[6]];
      }
    }
  }

  /** Reads the wireless interface's settings, to look for an assigned address. */
  function ShowDeviceCommand(iface: string): Argv {
    ["nmcli", "device", "show", iface]
  }

  /**
   * The four commands `create_hotspot` runs, in order: delete the old profile,
   * add a Wi-Fi profile on `iface` broadcasting `name`, switch it to access-point
   * mode on the 2.4 GHz band with shared addressing, and bring it up.
   */
  function HotspotSetupCommands(iface: string, name: string): seq<Argv> {
    [ ["nmcli", "connection", "delete", HotspotProfile],
      ["nmcli", "connection", "add", "type", "wifi", "ifname", iface, "con-name", HotspotProfile,
       "autoconnect", "yes", "ssid", name],
      ["nmcli", "connection", "modify", HotspotProfile, "802-11-wireless.mode", "ap",
       "802-11-wireless.band", "bg", "ipv4.method", "shared"],
      ["nmcli", "connection", "up", HotspotProfile] ]
  }

  /** The two commands `shutdown_hotspot` runs: take the profile down, then delete it. */
  function HotspotTeardownCommands(): seq<Argv> {
    [ ["nmcli", "connection", "down", HotspotProfile],
      ["nmcli", "connection", "delete", HotspotProfile] ]
  }

  /**
   * How many of the setup commands run: a delete that raises stops after it;
   * the add and the modify stop the sequence unless they exit with 0.
   */
  function SetupStepsRun(remove: Run, add: Run, configure: Run): (n: nat)
    ensures 1 <= n <= 4
    ensures n == 4 <==> Completed(remove) && Succeeded(add) && Succeeded(configure)
  {
    if !Completed(remove) then 1
    else if !Succeeded(add) then 2
    else if !Succeeded(configure) then 3
    else 4
  }

  // ---------------------------------------------------------------------------
  // Joining a network
  // ---------------------------------------------------------------------------

  /** The join command exited with 0, so `connection_status` became "connected". */
  predicate JoinCompleted(cleanup: Run, join: Run) {
    Completed(cleanup) && Succeeded(join)
  }

  /**
   * What `connect_to_network` returns: true when the join command exits with 0
   * and no exception follows. The IP check's output is only logged.
   */
  predicate JoinReported(cleanup: Run, join: Run, ipCheck: Run) {
    JoinCompleted(cleanup, join) && Completed(ipCheck)
  }

  /** The commands `connect_to_network` runs, given how the first two end. */
  function JoinTrace(iface: string, ssid: string, password: string, cleanup: Run, join: Run): (cmds: seq<Argv>)
    ensures 1 <= |cmds| <= 3 && cmds[0] == DeleteProfileCommand(ssid)
    ensures |cmds| >= 2 <==> Completed(cleanup)
    ensures |cmds| >= 2 ==> JoinArgs(cmds[1]) == Some((ssid, password))
    ensures |cmds| == 3 <==> JoinCompleted(cleanup, join)
    ensures |cmds| == 3 ==> cmds[2] == ShowDeviceCommand(iface)
  {
    [DeleteProfileCommand(ssid)]
    + (if Completed(cleanup) then [JoinCommand(ssid, password)] else [])
    + (if JoinCompleted(cleanup, join) then [ShowDeviceCommand(iface)] else [])
  }

  // ---------------------------------------------------------------------------
  // The /connect handler
  // ---------------------------------------------------------------------------

  /**
   * The JSON body of a `/connect` request. `Malformed` stands for a body that is
   * not a JSON object (`request.get_json()` or `data.get` raises) and carries the
   * exception's text; a `None` field is one that is absent or null.
   */
  datatype ConnectRequest =
    | Malformed(reason: string)
    | Body(ssid: Option<string>, password: Option<string>)

  /** The JSON reply of `/connect`: `{success, message, connected, ssid}` or `{success: false, error}`. */
  datatype ConnectReply =
    | ConnectOk(message: string, ssid: string)
    | ConnectError(error: string)

  const SsidRequired: string := "SSID is required"

  const JoinFailed: string := "Failed to connect to network. Please check your credentials and try again."

  function SuccessMessage(ssid: string): string {
    "Successfully connected to " + ssid + "! Portal will shut down in a few seconds."
  }

  /**
   * The validation gate of `/connect`: the network to join and the password,
   * "" when none is given, or the error to reply with. A missing or empty SSID
   * is refused; any other SSID, blanks included, is passed on.
   */
  function ConnectTarget(req: ConnectRequest): (r: Result<(string, string)>)
    ensures r.Ok? <==> req.Body? && req.ssid.Some? && req.ssid.value != []
    ensures req.Malformed? ==> r == Err(req.reason)
    ensures req.Body? && !r.Ok? ==> r == Err(SsidRequired)
    ensures r.Ok? ==> r.value.0 == req.ssid.value && r.value.0 != []
    ensures r.Ok? && req.password.Some? ==> r.value.1 == req.password.value
    ensures r.Ok? && req.password.None? ==> r.value.1 == []
  {
    match req
    case Malformed(reason) => Err(reason)
    case Body(ssid, password) =>
      if ssid.None? || ssid.value == [] then Err(SsidRequired)
      else Ok((ssid.value, password.GetOr([])))
  }

  // ---------------------------------------------------------------------------
  // The portal object
  // ---------------------------------------------------------------------------

  class WiFiConnect {
    const hotspotName: string := "Setup-Robot-WiFi"
    const iface: string := "wlan0"

    var isHotspotActive: bool
    var connectionStatus: ConnectionStatus
    /** How many delayed-teardown threads `/connect` has started. */
    var teardownsArmed: nat

    constructor ()
      ensures !isHotspotActive && connectionStatus == Disconnected && teardownsArmed == 0
    {
      isHotspotActive := false;
      connectionStatus := Disconnected;
      teardownsArmed := 0;
    }

    /**
     * `scan_wifi_networks`, given nmcli's exit status and standard output. A
     * non-zero status (`check=True`) gives no networks. Otherwise it keeps the
     * first record of each non-empty SSID in output order, then sorts by signal,
     * strongest first, keeping the order of equal signals.
     */
    method ScanWifiNetworks(code: int, stdout: string) returns (networks: seq<Network>)
      ensures networks == ScanResult(code, stdout)
      ensures code != 0 ==> networks == []
      ensures SortedBySignal(networks) && DistinctSsids(networks)
      ensures forall n :: n in networks ==>
        n.ssid != [] && Strip(n.ssid) == n.ssid && (n.signal >= 0 || n.signal == NoSignal)
      ensures code == 0 ==> forall v :: WithSignal(networks, v) == WithSignal(Kept(stdout), v)
    {
      if code != 0 {
        ScanResultOrder(code, stdout);
        return [];
      }
      networks := [];
      var seen: set<string> := {};
      var lines := Lines(stdout);
      for i := 0 to |lines|
        invariant networks == Dedup(Records(lines[..i]))
        invariant seen == SsidsOf(networks)
      {
        var line := lines[i];
        assert lines[..i + 1] == lines[..i] + [line];
        RecordsSnoc(lines[..i], line);
        ghost var parsed := ParseLine(line);
        if line == [] {
          continue;
        }
        var parts := Split(line, ':');
        if |parts| >= 3 {
          var ssid := Strip(parts[0]);
          var signal := ParseSignal(parts[1]);
          var security := ParseSecurity(parts[2]);
          assert parsed == Some(Network(ssid, signal, security));
          DedupSnoc(Records(lines[..i]), parsed.value);
          if ssid != [] && ssid !in seen {
            SsidsOfSnoc(networks, parsed.value);
            networks := networks + [Network(ssid, signal, security)];
            seen := seen + {ssid};
          }
        }
      }
      assert lines[..|lines|] == lines;
      networks := SortBySignal(networks);
      ScanResultOrder(code, stdout);
      ScanResultContents(code, stdout);
    }

    /**
     * `connect_to_network`: delete any saved profile for `ssid`, run the join
     * command, and on exit status 0 set the status to connected and read the
     * interface's settings. It reports success exactly when the join exits with
     * 0 and nothing raises; a non-zero exit, a timeout or an exception reports
     * failure, and the status changes only once the join has exited with 0.
     */
    method ConnectToNetwork(ssid: string, password: string, cleanup: Run, join: Run, ipCheck: Run)
      returns (ok: bool, cmds: seq<Argv>)
      modifies this`connectionStatus
      ensures ok <==> JoinReported(cleanup, join, ipCheck)
      ensures connectionStatus == if JoinCompleted(cleanup, join) then Connected else old(connectionStatus)
      ensures cmds == JoinTrace(iface, ssid, password, cleanup, join)
    {
      cmds := [DeleteProfileCommand(ssid)];
      if !Completed(cleanup) {
        return false, cmds;
      }
      var cmd := JoinCommand(ssid, password);
      cmds := cmds + [cmd];
      if !Succeeded(join) {
        return false, cmds;
      }
      connectionStatus := Connected;
      cmds := cmds + [ShowDeviceCommand(iface)];
      ok := Completed(ipCheck);
    }

    /**
     * `create_hotspot`: the setup commands in order, stopping at the first that
     * fails. The hotspot is marked active only when the add, the modify and the
     * up all exit with 0; a failure leaves the flag as it was.
     */
    method CreateHotspot(remove: Run, add: Run, configure: Run, up: Run) returns (ok: bool, cmds: seq<Argv>)
      modifies this`isHotspotActive
      ensures ok <==> SetupStepsRun(remove, add, configure) == 4 && Succeeded(up)
      ensures isHotspotActive == (ok || old(isHotspotActive))
      ensures cmds == HotspotSetupCommands(iface, hotspotName)[..SetupStepsRun(remove, add, configure)]
    {
      var steps := HotspotSetupCommands(iface, hotspotName);
      cmds := [steps[0]];
      if !Completed(remove) {
        return false, cmds;
      }
      cmds := cmds + [steps[1]];
      if !Succeeded(add) {
        return false, cmds;
      }
      cmds := cmds + [steps[2]];
      if !Succeeded(configure) {
        return false, cmds;
      }
      cmds := cmds + [steps[3]];
      if Succeeded(up) {
        isHotspotActive := true;
        ok := true;
      } else {
        ok := false;
      }
    }

    /**
     * `shutdown_hotspot`: take the profile down and delete it, ignoring both
     * exit statuses, then clear the flag. Only an exception from one of the two
     * commands skips the clearing.
     */
    method ShutdownHotspot(down: Run, remove: Run) returns (cmds: seq<Argv>)
      modifies this`isHotspotActive
      ensures isHotspotActive == if Completed(down) && Completed(remove) then false else old(isHotspotActive)
      ensures cmds == HotspotTeardownCommands()[..if Completed(down) then 2 else 1]
    {
      var steps := HotspotTeardownCommands();
      cmds := [steps[0]];
      if !Completed(down) {
        return;
      }
      cmds := cmds + [steps[1]];
      if !Completed(remove) {
        return;
      }
      isHotspotActive := false;
    }

    /**
     * The `/connect` handler. A request refused by the gate gets its error and
     * runs no command. Otherwise it joins; on success it arms one delayed
     * teardown and echoes the SSID, on failure it replies with the join error
     * and arms nothing.
     */
    method ConnectWifi(req: ConnectRequest, cleanup: Run, join: Run, ipCheck: Run)
      returns (reply: ConnectReply, cmds: seq<Argv>)
      modifies this`connectionStatus, this`teardownsArmed
      ensures ConnectTarget(req).Err? ==>
        && reply == ConnectError(ConnectTarget(req).error)
        && cmds == []
        && connectionStatus == old(connectionStatus)
        && teardownsArmed == old(teardownsArmed)
      ensures ConnectTarget(req).Ok? ==>
        var ssid, password := ConnectTarget(req).value.0, ConnectTarget(req).value.1;
        && cmds == JoinTrace(iface, ssid, password, cleanup, join)
        && connectionStatus == (if JoinCompleted(cleanup, join) then Connected else old(connectionStatus))
        && (JoinReported(cleanup, join, ipCheck) ==>
              reply == ConnectOk(SuccessMessage(ssid), ssid) && teardownsArmed == old(teardownsArmed) + 1)
        && (!JoinReported(cleanup, join, ipCheck) ==>
              reply == ConnectError(JoinFailed) && teardownsArmed == old(teardownsArmed))
    {
      match ConnectTarget(req)
      case Err(e) =>
        reply := ConnectError(e);
        cmds := [];
      case Ok(target) =>
        var ok;
        ok, cmds := ConnectToNetwork(target.0, target.1, cleanup, join, ipCheck);
        if ok {
          teardownsArmed := teardownsArmed + 1;
          reply := ConnectOk(SuccessMessage(target.0), target.0);
        } else {
          reply := ConnectError(JoinFailed);
        }
    }
  }
}
