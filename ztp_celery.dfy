/** The Celery task that starts a bootstrap (aeon_ztp/ztp_celery.py): it reads the device's
    recorded state, skips duplicate runs, registers the device, runs the OS bootstrapper and
    then the user's finally script, and posts the outcome to the status service. Sockets,
    HTTP replies and child processes are inputs. */
module ZtpCelery {
  import opened Wrappers
  import opened Strings
  import opened Inventory

  /** AEON_HTTP_PORT, AEON_TOPDIR and AEON_LOGFILE, read when the module loads. */
  datatype Settings = Settings(port: string, topdir: string, logfile: string)

  /** The exceptions that escape the task. */
  datatype PyError = TypeError | IndexError | KeyError

  // ----- get_device_state -----

  function ListingUrl(server: string, target: string): string {
    "http://" + server + "/api/devices?ip_addr=" + target
  }

  /** The outcome of one Python subscript. */
  datatype Lookup = Value(v: Json) | Raises(error: PyError)

  /** `v[key]` for a string key: only an object has keys, and a missing one is a KeyError. */
  function Key(v: Json, key: string): (r: Lookup)
    ensures r.Value? <==> v.JObj? && key in v.fields
    ensures r.Value? ==> r.v == v.fields[key]
    ensures r.Raises? ==> (r.error == KeyError <==> v.JObj?)
  {
    match v
    case JObj(fields) => if key in fields then Value(fields[key]) else Raises(KeyError)
    case _ => Raises(TypeError)
  }

  /** `v[0]`: the first element of a list or the first character of a string; an empty one is
      an IndexError; an object never has the integer key 0. */
  function First(v: Json): (r: Lookup)
    ensures v.JArr? && v.elems != [] ==> r == Value(v.elems[0])
    ensures (v.JArr? && v.elems == []) || (v.JStr? && v.s == []) ==> r == Raises(IndexError)
    ensures v.JObj? ==> r == Raises(KeyError)
    ensures r.Value? ==> v.JArr? || v.JStr?
  {
    match v
    case JArr(elems) => if elems == [] then Raises(IndexError) else Value(elems[0])
    case JStr(s) => if s == [] then Raises(IndexError) else Value(JStr([s[0]]))
    case JObj(_) => Raises(KeyError)
    case _ => Raises(TypeError)
  }

  /** What get_device_state hands back: the state, or an exception it does not catch. */
  datatype StateRead = StateOf(value: Json) | Escapes(error: PyError)

  /** get_device_state on the decoded listing: `items[0]['state']`, or None when a lookup
      raises KeyError; any other exception escapes. */
  function DeviceState(listing: Json): (r: StateRead)
    ensures r.Escapes? ==> r.error != KeyError
    ensures r.StateOf? && r.value != JNull ==>
              listing.JObj? && "items" in listing.fields && listing.fields["items"].JArr?
              && |listing.fields["items"].elems| > 0 && listing.fields["items"].elems[0].JObj?
              && listing.fields["items"].elems[0].fields.Keys >= {"state"}
              && r.value == listing.fields["items"].elems[0].fields["state"]
  {
    var items := Key(listing, "items");
    var first := if items.Value? then First(items.v) else items;
    var state := if first.Value? then Key(first.v, "state") else first;
    match state
    case Value(v) => StateOf(v)
    case Raises(e) => if e == KeyError then StateOf(JNull) else Escapes(e)
  }

  /** The listing the service returns for a device it knows: the record's state comes back,
      or None when the record has none; a listing without items reads as None. */
  lemma DeviceStateOfListing(record: map<string, Json>, rest: seq<Json>, others: map<string, Json>)
    ensures var listing := JObj(others["items" := JArr([JObj(record)] + rest)]);
            DeviceState(listing) == StateOf(if "state" in record then record["state"] else JNull)
    ensures "items" !in others ==> DeviceState(JObj(others)) == StateOf(JNull)
    ensures DeviceState(JObj(others["items" := JArr([])])) == Escapes(IndexError)
  {
  }

  /** `state and state not in ('ERROR', 'DONE')`: a run is a duplicate when the device already
      has a state that is neither a failure nor a completion. */
  predicate IsDuplicate(state: Json)
    ensures IsDuplicate(state) ==> state != JNull && state != JStr("") && state != JStr("ERROR") && state != JStr("DONE")
    ensures state.JStr? && state.s != "" && state.s != "ERROR" && state.s != "DONE" ==> IsDuplicate(state)
  {
    Truthy(state) && state != JStr("ERROR") && state != JStr("DONE")
  }

  // ----- the calls the task makes -----

  /** The `state` values this task writes. */
  datatype TaskState = Registered | Error | Finally | Done
  {
    function Name(): string {
      match this
      case Registered => "REGISTERED"
      case Error => "ERROR"
      case Finally => "FINALLY"
      case Done => "DONE"
    }
  }

  datatype TaskMessage =
    | Registering
    | BootstrapperFailed(stderr: string)
    | FinallyFailed(stderr: string)
    | FinallyStarted(pid: int, script: Program)
    | Completed
  {
    function Text(): string {
      match this
      case Registering => "device registered, waiting for bootstrap start"
      case BootstrapperFailed(err) => "Error running bootstrapper: " + err
      case FinallyFailed(err) => "Error running finally script: " + err
      case FinallyStarted(pid, script) => "executing 'finally' script:[pid=" + IntToString(pid) + "] " + script.Command()
      case Completed => "device bootstrap completed"
    }
  }

  datatype Warning = Duplicate(target: string) | Rerun(target: string)
  {
    function Text(): string {
      match this
      case Duplicate(t) =>
        "Device at " + t + " has already registered. This is likely a duplicate bootstrap run and will be terminated."
      case Rerun(t) =>
        "Device at " + t + " has previously successfully completed ZTP process. ZTP process has been initiated again."
    }
  }

  /** What the task does that can be observed from outside. */
  datatype Call =
    | ReadState(server: string, target: string)                // GET the device listing
    | Warn(warning: Warning)                                   // log.warning
    | Register(server: string, target: string, osName: string) // POST /api/devices
    | Spawn(program: Program)                                  // subprocess.Popen(command, shell=True)
    | Status(state: TaskState, message: TaskMessage)           // post_device_status

  /** The registration POST. */
  function RegistrationRequest(server: string, target: string, osName: string): (r: Request)
    ensures r.Post? && r.url == "http://" + server + "/api/devices"
    ensures r.body.JObj? && r.body.fields.Keys == {"ip_addr", "os_name", "state", "message"}
    ensures r.body.fields["state"] == JStr("REGISTERED") && r.body.fields["ip_addr"] == JStr(target)
    ensures r.body.fields["os_name"] == JStr(osName)
    ensures r.body.fields["message"] == JStr("device registered, waiting for bootstrap start")
  {
    Post("http://" + server + "/api/devices",
         JObj(map["ip_addr" := JStr(target), "os_name" := JStr(osName),
                  "state" := JStr(Registered.Name()), "message" := JStr(Registering.Text())]))
  }

  /** The HTTP request behind a call, for the task on `target` running `osName`. */
  function Wire(server: string, target: string, osName: string, c: Call): (r: Option<Request>)
    ensures c.Status? ==>
              r.Some? && r.value.Put? && r.value.url == "http://" + server + "/api/devices/status"
              && r.value.body.JObj? && r.value.body.fields.Keys == StatusKeys
              && DecodeStatus(r.value.body) == Some(StatusFields(osName, target, Some(c.state.Name()), Some(c.message.Text())))
    ensures c.ReadState? ==> r == Some(Get(ListingUrl(c.server, c.target)))
    ensures c.Register? ==>
              r.Some? && r.value.Post? && r.value.url == "http://" + c.server + "/api/devices"
              && r.value.body.JObj? && r.value.body.fields.Keys == {"ip_addr", "os_name", "state", "message"}
              && r.value.body.fields["os_name"] == JStr(c.osName)
              && r.value.body.fields["ip_addr"] == JStr(c.target)
    ensures c.Warn? || c.Spawn? ==> r.None?
  {
    match c
    case ReadState(server', target') => Some(Get(ListingUrl(server', target')))
    case Register(server', target', osName') => Some(RegistrationRequest(server', target', osName'))
    case Status(state, message) => Some(StatusUpdate(server, osName, target, Some(state.Name()), Some(message.Text())))
    case _ => None
  }

  // ----- do_bootstrapper -----

  /** One `'<flag> %s' % value` argument of the bootstrapper command. */
  function Opt(flag: string, value: string): string {
    flag + " " + value
  }

  function BootstrapperArgs(s: Settings, osName: string, target: string, server: string): seq<string> {
    [s.topdir + "/bin/" + osName + "_bootstrap*",
     Opt("--target", target),
     Opt("--server", server),
     Opt("--topdir", s.topdir),
     Opt("-U", "AEON_TUSER"),
     Opt("-P", "AEON_TPASSWD"),
     Opt("--logfile", s.logfile)]
  }

  /** The shell command do_bootstrapper runs: its arguments joined with single spaces. */
  function BootstrapperCommand(s: Settings, osName: string, target: string, server: string): (cmd: string)
    ensures s.topdir + "/bin/" + osName + "_bootstrap* --target " + target <= cmd
  {
    var args := BootstrapperArgs(s, osName, target, server);
    assert args == [args[0]] + args[1..];
    JoinCons(args[0], args[1..]);
    assert args[1..] == [args[1]] + args[2..];
    JoinCons(args[1], args[2..]);
    Join(args)
  }

  /** The words of the bootstrapper command line, in order: the program, then each option
      and its value, the user and password given as the names of environment variables. */
  function BootstrapperWords(s: Settings, osName: string, target: string, server: string): seq<string> {
    [s.topdir + "/bin/" + osName + "_bootstrap*",
     "--target", target, "--server", server, "--topdir", s.topdir,
     "-U", "AEON_TUSER", "-P", "AEON_TPASSWD", "--logfile", s.logfile]
  }

  /** Joining with an option in one piece or as flag and value gives the same text. */
  lemma {:induction false} JoinOpt(pre: seq<string>, flag: string, value: string, rest: seq<string>)
    ensures Join(pre + [Opt(flag, value)] + rest) == Join(pre + [flag, value] + rest)
  {
    if pre == [] {
      assert pre + [Opt(flag, value)] + rest == [Opt(flag, value)] + rest;
      assert pre + [flag, value] + rest == [flag] + ([value] + rest);
      JoinCons(flag, [value] + rest);
      if rest != [] {
        JoinCons(Opt(flag, value), rest);
        JoinCons(value, rest);
      }
    } else {
      JoinOpt(pre[1..], flag, value, rest);
      assert pre + [Opt(flag, value)] + rest == [pre[0]] + (pre[1..] + [Opt(flag, value)] + rest);
      assert pre + [flag, value] + rest == [pre[0]] + (pre[1..] + [flag, value] + rest);
      JoinCons(pre[0], pre[1..] + [Opt(flag, value)] + rest);
      JoinCons(pre[0], pre[1..] + [flag, value] + rest);
    }
  }

  /** The first three options of the command, split into flag and value. */
  lemma JoinLeadingOpts(s: Settings, osName: string, target: string, server: string)
    ensures Join(BootstrapperArgs(s, osName, target, server))
            == Join([s.topdir + "/bin/" + osName + "_bootstrap*", "--target", target, "--server", server,
                     "--topdir", s.topdir, Opt("-U", "AEON_TUSER"), Opt("-P", "AEON_TPASSWD"), Opt("--logfile", s.logfile)])
  {
    var prog := s.topdir + "/bin/" + osName + "_bootstrap*";
    var t, v, d := Opt("--target", target), Opt("--server", server), Opt("--topdir", s.topdir);
    var u, w, l := Opt("-U", "AEON_TUSER"), Opt("-P", "AEON_TPASSWD"), Opt("--logfile", s.logfile);
    var a0 := [prog];
    var a1 := a0 + ["--target", target];
    var a2 := a1 + ["--server", server];
    JoinOpt(a0, "--target", target, [v, d, u, w, l]);
    JoinOpt(a1, "--server", server, [d, u, w, l]);
    JoinOpt(a2, "--topdir", s.topdir, [u, w, l]);
    assert a0 + [t] + [v, d, u, w, l] == BootstrapperArgs(s, osName, target, server);
    assert a0 + ["--target", target] + [v, d, u, w, l] == a1 + [v] + [d, u, w, l];
    assert a1 + ["--server", server] + [d, u, w, l] == a2 + [d] + [u, w, l];
    assert a2 + ["--topdir", s.topdir] + [u, w, l]
           == [prog, "--target", target, "--server", server, "--topdir", s.topdir, u, w, l];
  }

  /** The last three options of the command, split into flag and value. */
  lemma JoinTrailingOpts(s: Settings, osName: string, target: string, server: string)
    ensures Join([s.topdir + "/bin/" + osName + "_bootstrap*", "--target", target, "--server", server,
                  "--topdir", s.topdir, Opt("-U", "AEON_TUSER"), Opt("-P", "AEON_TPASSWD"), Opt("--logfile", s.logfile)])
            == Join(BootstrapperWords(s, osName, target, server))
  {
    var prog := s.topdir + "/bin/" + osName + "_bootstrap*";
    var u, w, l := Opt("-U", "AEON_TUSER"), Opt("-P", "AEON_TPASSWD"), Opt("--logfile", s.logfile);
    var a3 := [prog, "--target", target, "--server", server, "--topdir", s.topdir];
    var a4 := a3 + ["-U", "AEON_TUSER"];
    var a5 := a4 + ["-P", "AEON_TPASSWD"];
    JoinOpt(a3, "-U", "AEON_TUSER", [w, l]);
    JoinOpt(a4, "-P", "AEON_TPASSWD", [l]);
    JoinOpt(a5, "--logfile", s.logfile, []);
    assert a3 + [u] + [w, l] == [prog, "--target", target, "--server", server, "--topdir", s.topdir, u, w, l];
    assert a3 + ["-U", "AEON_TUSER"] + [w, l] == a4 + [w] + [l];
    assert a4 + ["-P", "AEON_TPASSWD"] + [l] == a5 + [l] + [];
    assert a5 + ["--logfile", s.logfile] + [] == BootstrapperWords(s, osName, target, server);
  }

  lemma WordsHaveNoSpace(s: Settings, osName: string, target: string, server: string)
    requires NoSpace(s.topdir) && NoSpace(s.logfile) && NoSpace(osName) && NoSpace(target) && NoSpace(server)
    ensures forall k :: 0 <= k < 13 ==> NoSpace(BootstrapperWords(s, osName, target, server)[k])
  {
    NoSpaceAppend(s.topdir, "/bin/");
    NoSpaceAppend(s.topdir + "/bin/", osName);
    NoSpaceAppend(s.topdir + "/bin/" + osName, "_bootstrap*");
  }

  /** Split back on single spaces, the command gives exactly the words of BootstrapperWords
      when the settings, target, server and OS name hold no space. */
  lemma BootstrapperCommandWords(s: Settings, osName: string, target: string, server: string)
    requires NoSpace(s.topdir) && NoSpace(s.logfile) && NoSpace(osName) && NoSpace(target) && NoSpace(server)
    ensures Split(BootstrapperCommand(s, osName, target, server)) == BootstrapperWords(s, osName, target, server)
  {
    JoinLeadingOpts(s, osName, target, server);
    JoinTrailingOpts(s, osName, target, server);
    WordsHaveNoSpace(s, osName, target, server);
    SplitJoin(BootstrapperWords(s, osName, target, server));
  }

  // ----- do_finalize, ztp_bootstrapper, ztp_finalizer -----

  /** A child process as the task sees it once it has finished. */
  datatype Child = Child(pid: int, rc: int, stderr: string)

  /** The reply to the registration POST. */
  datatype Registration = Registration(ok: bool, statusCode: int, body: Json)

  /** Everything the task learns from outside: the address the device reaches the server
      on, the device listing, the registration reply, whether the finally script exists,
      and how the two child processes end. */
  datatype Host = Host(serverIp: string, listing: Json, registration: Registration, bootstrapper: Child,
                       finallyExists: bool, finalizer: Child)

  /** `"{}:{}".format(get_server_ipaddr(target), _AEON_PORT)`. */
  function Server(s: Settings, host: Host): string {
    host.serverIp + ":" + s.port
  }

  /** `<topdir>/etc/profiles/default/<os_name>/finally`. */
  function FinallyPath(s: Settings, osName: string): string {
    var profileDir := PathJoin(PathJoin(PathJoin(PathJoin(s.topdir, "etc"), "profiles"), "default"), osName);
    PathJoin(profileDir, "finally")
  }

  /** The variables do_finalize adds to the finally script's environment. */
  function FinallyEnv(s: Settings, target: string, server: string): map<string, string> {
    map["AEON_LOGFILE" := s.logfile, "AEON_TARGET" := target, "AEON_SERVER" := server]
  }

  /** The two programs the task starts, with the shell command and the variables it adds to
      the child's environment. */
  datatype Program =
    | BootstrapperProgram(settings: Settings, osName: string, target: string, server: string)
    | FinallyProgram(settings: Settings, osName: string, target: string, server: string)
  {
    function Command(): string {
      match this
      case BootstrapperProgram(s, osName, target, server) => BootstrapperCommand(s, osName, target, server)
      case FinallyProgram(s, osName, _, _) => FinallyPath(s, osName)
    }

    function Env(): map<string, string> {
      match this
      case BootstrapperProgram(_, _, _, _) => map[]
      case FinallyProgram(s, _, target, server) => FinallyEnv(s, target, server)
    }
  }

  /** The finally script is the file `finally` under the top directory. */
  lemma FinallyUnderTopdir(s: Settings, osName: string)
    ensures var p := FinallyPath(s, osName);
            s.topdir <= p && |p| >= 7 && p[|p| - 7..] == "finally"
  {
    var d1 := PathJoin(s.topdir, "etc");
    var d2 := PathJoin(d1, "profiles");
    var d3 := PathJoin(d2, "default");
    var d4 := PathJoin(d3, osName);
    PathJoinParts(s.topdir, "etc");
    PathJoinParts(d1, "profiles");
    PathJoinParts(d2, "default");
    PathJoinParts(d3, osName);
    PathJoinParts(d4, "finally");
  }

  /** The finally script runs from the OS's default profile under the top directory and sees
      the task's log file, target and server in its environment; the bootstrapper adds nothing
      to its environment. */
  lemma ProgramShapes(s: Settings, osName: string, target: string, server: string)
    ensures var cmd := FinallyProgram(s, osName, target, server).Command();
            s.topdir <= cmd && |cmd| >= 7 && cmd[|cmd| - 7..] == "finally"
    ensures var env := FinallyProgram(s, osName, target, server).Env();
            env.Keys == {"AEON_LOGFILE", "AEON_TARGET", "AEON_SERVER"}
            && env["AEON_TARGET"] == target && env["AEON_SERVER"] == server && env["AEON_LOGFILE"] == s.logfile
    ensures BootstrapperProgram(s, osName, target, server).Env() == map[]
  {
    FinallyUnderTopdir(s, osName);
  }

  /** What do_finalize returns: a bare 0 when there is no script, else the script's code and stderr. */
  datatype Finalized = NoScript | Ran(rc: int, stderr: string)

  /** How the Celery task ends: a return value (None or an int) or an uncaught exception. */
  datatype TaskEnd = Returned(value: Option<int>) | Raised(error: PyError)

  // Projections of the calls a task makes.
  datatype Kind = Statuses | Spawns | Terminals

  predicate Is(k: Kind, c: Call) {
    match k
    case Statuses => c.Status?
    case Spawns => c.Spawn?
    case Terminals => c.Status? && (c.state == Error || c.state == Done)
  }

  /** The calls of kind `k`, in order. */
  function Select(k: Kind, calls: seq<Call>): (r: seq<Call>)
    ensures |r| <= |calls|
    ensures forall i :: 0 <= i < |r| ==> Is(k, r[i]) && r[i] in calls
  {
    if calls == [] then []
    else Select(k, calls[..|calls| - 1]) + (if Is(k, calls[|calls| - 1]) then [calls[|calls| - 1]] else [])
  }

  lemma SelectPush(calls: seq<Call>, c: Call)
    ensures forall k :: Select(k, calls + [c]) == Select(k, calls) + (if Is(k, c) then [c] else [])
  {
    assert (calls + [c])[..|calls|] == calls;
  }

  lemma {:induction false} SelectAppend(k: Kind, a: seq<Call>, b: seq<Call>)
    ensures Select(k, a + b) == Select(k, a) + Select(k, b)
    decreases |b|
  {
    if b == [] {
      assert a + b == a;
    } else {
      var b' := b[..|b| - 1];
      assert (a + b)[..|a + b| - 1] == a + b';
      assert (a + b)[|a + b| - 1] == b[|b| - 1];
      SelectAppend(k, a, b');
    }
  }

  /** The calls do_finalize makes and what it returns. */
  datatype Finalizing = Finalizing(calls: seq<Call>, result: Finalized)

  function Finalize(s: Settings, osName: string, target: string, server: string, host: Host): (f: Finalizing)
    ensures f.calls == [] <==> !host.finallyExists
    ensures f.result.NoScript? <==> !host.finallyExists
  {
    if !host.finallyExists then Finalizing([], NoScript)
    else
      var script := FinallyProgram(s, osName, target, server);
      Finalizing([Spawn(script), Status(Finally, FinallyStarted(host.finalizer.pid, script))],
                 Ran(host.finalizer.rc, host.finalizer.stderr))
  }

  /** do_finalize, step by step. */
  method DoFinalize(s: Settings, osName: string, target: string, server: string, host: Host)
    returns (calls: seq<Call>, result: Finalized)
    ensures Finalizing(calls, result) == Finalize(s, osName, target, server, host)
  {
    var finalizer := FinallyProgram(s, osName, target, server);
    if !host.finallyExists {
      return [], NoScript;
    }
    calls := [Spawn(finalizer)];
    calls := calls + [Status(Finally, FinallyStarted(host.finalizer.pid, finalizer))];
    result := Ran(host.finalizer.rc, host.finalizer.stderr);
  }

  /** The finally script runs only when it exists; it is started with the task's target,
      server and log file in its environment, and the one status posted, FINALLY, names its
      pid and its path under the top directory. */
  lemma FinalizeReports(s: Settings, osName: string, target: string, server: string, host: Host)
    ensures var f := Finalize(s, osName, target, server, host);
            (f.calls == [] <==> !host.finallyExists) && (f.result.NoScript? <==> !host.finallyExists)
            && (host.finallyExists ==>
                  |f.calls| == 2 && f.calls[0].Spawn?
                  && f.calls[0].program == FinallyProgram(s, osName, target, server)
                  && Select(Statuses, f.calls) == [Status(Finally, FinallyStarted(host.finalizer.pid, f.calls[0].program))]
                  && Select(Terminals, f.calls) == [] && Select(Spawns, f.calls) == [f.calls[0]]
                  && f.result == Ran(host.finalizer.rc, host.finalizer.stderr))
  {
    if host.finallyExists {
      var script := FinallyProgram(s, osName, target, server);
      SelectStarted(script, FinallyStarted(host.finalizer.pid, script));
    }
  }

  lemma SelectStarted(script: Program, started: TaskMessage)
    ensures var calls := [Spawn(script), Status(Finally, started)];
            Select(Statuses, calls) == [Status(Finally, started)]
            && Select(Terminals, calls) == [] && Select(Spawns, calls) == [Spawn(script)]
  {
    var p1 := [Spawn(script)];
    SelectPush([], Spawn(script));
    assert [] + [Spawn(script)] == p1;
    SelectPush(p1, Status(Finally, started));
    assert [Spawn(script), Status(Finally, started)] == p1 + [Status(Finally, started)];
  }

  /** A state that lets a bootstrap go ahead: one that was read and is not a duplicate. */
  predicate Proceeds(st: StateRead) {
    st.StateOf? && !IsDuplicate(st.value)
  }

  /** How a refused registration ends: the status code, once the reply's 'message' is read. */
  function Refused(reg: Registration): (e: TaskEnd)
    ensures e.Returned? <==> reg.body.JObj? && "message" in reg.body.fields
    ensures e.Returned? ==> e.value == Some(reg.statusCode)
    ensures e.Raised? ==> (e.error == KeyError <==> reg.body.JObj?)
  {
    var m := Key(reg.body, "message");
    if m.Value? then Returned(Some(reg.statusCode)) else Raised(m.error)
  }

  /** The call starting the OS bootstrapper. */
  function BootstrapperSpawn(s: Settings, osName: string, target: string, server: string): Call {
    Spawn(BootstrapperProgram(s, osName, target, server))
  }

  /** The calls a task makes and how it ends. */
  datatype Run = Run(calls: seq<Call>, end: TaskEnd)

  /** The calls up to the registration of a device whose state lets the run go ahead. */
  function UpToRegistration(osName: string, target: string, server: string, state: Json): seq<Call> {
    [ReadState(server, target)]
    + (if state == JStr("DONE") then [Warn(Rerun(target))] else [])
    + [Register(server, target, osName)]
  }

  /** What follows an accepted registration: the bootstrapper, then the finally script. */
  function AfterRegistration(osName: string, target: string, s: Settings, host: Host): Run {
    var server := Server(s, host);
    var boot := BootstrapperSpawn(s, osName, target, server);
    if host.bootstrapper.rc != 0 then
      Run([boot, Status(Error, BootstrapperFailed(host.bootstrapper.stderr))], Returned(Some(host.bootstrapper.rc)))
    else
      var f := Finalize(s, osName, target, server, host);
      match f.result
      case NoScript => Run([boot], Raised(TypeError))
      case Ran(rc, err) =>
        Run([boot] + f.calls + [if rc != 0 then Status(Error, FinallyFailed(err)) else Status(Done, Completed)],
            Returned(Some(rc)))
  }

  /** ztp_bootstrapper as a function of what the task learns from outside. */
  function Bootstrap(osName: string, target: string, s: Settings, host: Host): (r: Run)
    ensures |r.calls| >= 1 && r.calls[0] == ReadState(Server(s, host), target)
  {
    var server := Server(s, host);
    match DeviceState(host.listing)
    case Escapes(e) => Run([ReadState(server, target)], Raised(e))
    case StateOf(st) =>
      if IsDuplicate(st) then Run([ReadState(server, target), Warn(Duplicate(target))], Returned(None))
      else
        var pre := UpToRegistration(osName, target, server, st);
        if !host.registration.ok then Run(pre, Refused(host.registration))
        else
          var rest := AfterRegistration(osName, target, s, host);
          Run(pre + rest.calls, rest.end)
  }

  /** ztp_bootstrapper: read the device state, stop on a duplicate run, register, run the
      bootstrapper and then the finally script, and post the outcome. */
  method ZtpBootstrapper(osName: string, target: string, s: Settings, host: Host) returns (calls: seq<Call>, end: TaskEnd)
    ensures Run(calls, end) == Bootstrap(osName, target, s, host)
  {
    var server := Server(s, host);
    calls := [ReadState(server, target)];
    var st := DeviceState(host.listing);
    if st.Escapes? {
      return calls, Raised(st.error);
    }
    if IsDuplicate(st.value) {
      return calls + [Warn(Duplicate(target))], Returned(None);
    }
    if st.value == JStr("DONE") {
      calls := calls + [Warn(Rerun(target))];
    }
    calls := calls + [Register(server, target, osName)];
    assert calls == UpToRegistration(osName, target, server, st.value);
    if !host.registration.ok {
      return calls, Refused(host.registration);
    }
    var pre := calls;
    calls := calls + [BootstrapperSpawn(s, osName, target, server)];
    if host.bootstrapper.rc != 0 {
      calls := calls + [Status(Error, BootstrapperFailed(host.bootstrapper.stderr))];
      return calls, Returned(Some(host.bootstrapper.rc));
    }
    var more, fin := DoFinalize(s, osName, target, server, host);
    if fin.NoScript? {
      return calls, Raised(TypeError);
    }
    calls := calls + more;
    if fin.rc != 0 {
      calls := calls + [Status(Error, FinallyFailed(fin.stderr))];
    } else {
      calls := calls + [Status(Done, Completed)];
    }
    end := Returned(Some(fin.rc));
    assert calls == pre + AfterRegistration(osName, target, s, host).calls;
  }

  // ----- what ztp_bootstrapper promises -----

  lemma UpToRegistrationQuiet(osName: string, target: string, server: string, state: Json)
    ensures forall k :: Select(k, UpToRegistration(osName, target, server, state)) == []
  {
    var read := [ReadState(server, target)];
    var warn := if state == JStr("DONE") then [Warn(Rerun(target))] else [];
    SelectPush([], read[0]);
    assert [] + read == read;
    if warn != [] {
      SelectPush(read, warn[0]);
    } else {
      assert read + warn == read;
    }
    SelectPush(read + warn, Register(server, target, osName));
  }

  /** After an accepted registration, what the task spawns and posts is what follows the
      registration. */
  lemma AcceptedSelects(osName: string, target: string, s: Settings, host: Host)
    requires Proceeds(DeviceState(host.listing)) && host.registration.ok
    ensures forall k :: Select(k, Bootstrap(osName, target, s, host).calls)
                        == Select(k, AfterRegistration(osName, target, s, host).calls)
    ensures Bootstrap(osName, target, s, host).end == AfterRegistration(osName, target, s, host).end
  {
    var pre := UpToRegistration(osName, target, Server(s, host), DeviceState(host.listing).value);
    var rest := AfterRegistration(osName, target, s, host).calls;
    UpToRegistrationQuiet(osName, target, Server(s, host), DeviceState(host.listing).value);
    forall k {
      SelectAppend(k, pre, rest);
    }
  }

  /** The calls after registration only start programs and post statuses. */
  lemma AfterRegistrationShape(osName: string, target: string, s: Settings, host: Host)
    ensures forall c :: c in AfterRegistration(osName, target, s, host).calls ==> c.Spawn? || c.Status?
  {
  }

  /** Whether a run goes ahead depends on the recorded state alone: after reading it, the task
      registers exactly when the state was read and is empty, ERROR or DONE, and warns of a
      re-run exactly when it is DONE. */
  lemma RegistersUnlessDuplicate(osName: string, target: string, s: Settings, host: Host)
    ensures var r := Bootstrap(osName, target, s, host);
            var st := DeviceState(host.listing);
            |r.calls| > 0 && r.calls[0] == ReadState(Server(s, host), target)
            && (Register(Server(s, host), target, osName) in r.calls <==> Proceeds(st))
            && (Warn(Rerun(target)) in r.calls <==> st == StateOf(JStr("DONE")))
  {
    var r := Bootstrap(osName, target, s, host);
    var st := DeviceState(host.listing);
    var server := Server(s, host);
    if Proceeds(st) {
      var pre := UpToRegistration(osName, target, server, st.value);
      AfterRegistrationShape(osName, target, s, host);
      if host.registration.ok {
        assert r.calls == pre + AfterRegistration(osName, target, s, host).calls;
      }
      assert r.calls[..|pre|] == pre;
      assert Register(server, target, osName) == pre[|pre| - 1];
    }
  }

  /** A duplicate run, or one whose state cannot be read, starts nothing and posts no status:
      the duplicate logs its warning and returns None, the unreadable state raises. */
  lemma DuplicateStops(osName: string, target: string, s: Settings, host: Host)
    requires !Proceeds(DeviceState(host.listing))
    ensures var r := Bootstrap(osName, target, s, host);
            var st := DeviceState(host.listing);
            Select(Statuses, r.calls) == [] && Select(Spawns, r.calls) == []
            && (st.Escapes? ==> r.calls == [ReadState(Server(s, host), target)] && r.end == Raised(st.error))
            && (st.StateOf? ==>
                  r.calls == [ReadState(Server(s, host), target), Warn(Duplicate(target))] && r.end == Returned(None))
  {
    var r := Bootstrap(osName, target, s, host);
    var read := ReadState(Server(s, host), target);
    SelectPush([], read);
    assert [] + [read] == [read];
    if DeviceState(host.listing).StateOf? {
      SelectPush([read], Warn(Duplicate(target)));
    }
  }

  /** A refused registration starts nothing and posts no status: the task returns the HTTP
      status code, or raises when the reply has no 'message' to log. */
  lemma RefusedRegistration(osName: string, target: string, s: Settings, host: Host)
    requires Proceeds(DeviceState(host.listing)) && !host.registration.ok
    ensures var r := Bootstrap(osName, target, s, host);
            Select(Statuses, r.calls) == [] && Select(Spawns, r.calls) == []
            && r.end == Refused(host.registration)
            && (r.end == Returned(Some(host.registration.statusCode))
                <==> host.registration.body.JObj? && "message" in host.registration.body.fields)
  {
    UpToRegistrationQuiet(osName, target, Server(s, host), DeviceState(host.listing).value);
  }

  /** The last call of an accepted run is the last call after registration. */
  lemma AcceptedLast(osName: string, target: string, s: Settings, host: Host)
    requires Proceeds(DeviceState(host.listing)) && host.registration.ok
    ensures var r := Bootstrap(osName, target, s, host);
            var rest := AfterRegistration(osName, target, s, host).calls;
            |r.calls| > 0 && r.calls[|r.calls| - 1] == rest[|rest| - 1]
  {
  }

  /** A bootstrapper that exits non-zero leads to exactly one status, ERROR with its stderr,
      posted last, and to the return of its code; the finally script is not started. */
  lemma BootstrapperFailure(osName: string, target: string, s: Settings, host: Host)
    requires Proceeds(DeviceState(host.listing)) && host.registration.ok && host.bootstrapper.rc != 0
    ensures var r := Bootstrap(osName, target, s, host);
            var failed := Status(Error, BootstrapperFailed(host.bootstrapper.stderr));
            Select(Spawns, r.calls) == [Spawn(BootstrapperProgram(s, osName, target, Server(s, host)))]
            && Select(Statuses, r.calls) == [failed] && Select(Terminals, r.calls) == [failed]
            && r.calls[|r.calls| - 1] == failed
            && r.end == Returned(Some(host.bootstrapper.rc))
  {
    AcceptedSelects(osName, target, s, host);
    AcceptedLast(osName, target, s, host);
    var rest := AfterRegistration(osName, target, s, host).calls;
    SelectPush([], rest[0]);
    SelectPush([rest[0]], rest[1]);
    assert [] + [rest[0]] == [rest[0]];
    assert [rest[0]] + [rest[1]] == rest;
  }

  /** A bootstrapper that succeeds with no finally script present: the task raises before
      posting anything (do_finalize's bare 0 cannot be unpacked into a pair). */
  lemma FinallyMissing(osName: string, target: string, s: Settings, host: Host)
    requires Proceeds(DeviceState(host.listing)) && host.registration.ok && host.bootstrapper.rc == 0
    requires !host.finallyExists
    ensures var r := Bootstrap(osName, target, s, host);
            Select(Spawns, r.calls) == [Spawn(BootstrapperProgram(s, osName, target, Server(s, host)))]
            && Select(Statuses, r.calls) == [] && r.end == Raised(TypeError)
  {
    AcceptedSelects(osName, target, s, host);
    var rest := AfterRegistration(osName, target, s, host).calls;
    SelectPush([], rest[0]);
    assert [] + [rest[0]] == rest;
  }

  /** What is selected from the calls of a run whose finally script ran. */
  lemma SelectFinallyRun(boot: Program, script: Program, started: TaskMessage, outcome: Call)
    requires outcome.Status? && (outcome.state == Done || outcome.state == Error)
    ensures var calls := [Spawn(boot), Spawn(script), Status(Finally, started), outcome];
            Select(Spawns, calls) == [Spawn(boot), Spawn(script)]
            && Select(Statuses, calls) == [Status(Finally, started), outcome]
            && Select(Terminals, calls) == [outcome]
  {
    var p1 := [Spawn(boot)];
    var p2 := p1 + [Spawn(script)];
    var p3 := p2 + [Status(Finally, started)];
    assert [Spawn(boot), Spawn(script), Status(Finally, started), outcome] == p3 + [outcome];
    SelectPush([], Spawn(boot));
    assert [] + [Spawn(boot)] == p1;
    SelectPush(p1, Spawn(script));
    SelectPush(p2, Status(Finally, started));
    SelectPush(p3, outcome);
  }

  /** A bootstrapper that succeeds followed by a finally script: the script is started after
      the bootstrapper, FINALLY is posted, and then exactly one of DONE (code 0) or ERROR with
      its stderr, as the last call; the script's code is returned. */
  lemma FinallyRan(osName: string, target: string, s: Settings, host: Host)
    requires Proceeds(DeviceState(host.listing)) && host.registration.ok && host.bootstrapper.rc == 0
    requires host.finallyExists
    ensures var r := Bootstrap(osName, target, s, host);
            var server := Server(s, host);
            var script := FinallyProgram(s, osName, target, server);
            var outcome := if host.finalizer.rc == 0 then Status(Done, Completed)
                           else Status(Error, FinallyFailed(host.finalizer.stderr));
            Select(Spawns, r.calls) == [Spawn(BootstrapperProgram(s, osName, target, server)), Spawn(script)]
            && Select(Statuses, r.calls) == [Status(Finally, FinallyStarted(host.finalizer.pid, script)), outcome]
            && Select(Terminals, r.calls) == [outcome] && r.calls[|r.calls| - 1] == outcome
            && r.end == Returned(Some(host.finalizer.rc))
  {
    AcceptedSelects(osName, target, s, host);
    AcceptedLast(osName, target, s, host);
    var server := Server(s, host);
    var script := FinallyProgram(s, osName, target, server);
    var outcome := if host.finalizer.rc == 0 then Status(Done, Completed)
                   else Status(Error, FinallyFailed(host.finalizer.stderr));
    var boot := BootstrapperProgram(s, osName, target, server);
    var started := FinallyStarted(host.finalizer.pid, script);
    var rest := AfterRegistration(osName, target, s, host).calls;
    assert rest == [Spawn(boot), Spawn(script), Status(Finally, started), outcome];
    SelectFinallyRun(boot, script, started, outcome);
  }

  /** DONE is posted exactly when the bootstrapper and the finally script both ran and both
      exited 0, and it is then the task's last call. */
  lemma DoneOnlyOnSuccess(osName: string, target: string, s: Settings, host: Host)
    ensures var r := Bootstrap(osName, target, s, host);
            (Status(Done, Completed) in r.calls <==>
               Proceeds(DeviceState(host.listing)) && host.registration.ok && host.bootstrapper.rc == 0
               && host.finallyExists && host.finalizer.rc == 0)
            && (Status(Done, Completed) in r.calls ==> r.calls[|r.calls| - 1] == Status(Done, Completed))
  {
    var r := Bootstrap(osName, target, s, host);
    var st := DeviceState(host.listing);
    if Proceeds(st) {
      var pre := UpToRegistration(osName, target, Server(s, host), st.value);
      assert Status(Done, Completed) !in pre;
      if host.registration.ok {
        var rest := AfterRegistration(osName, target, s, host).calls;
        assert r.calls == pre + rest;
      }
    }
  }

  /** A run posts at most one of ERROR and DONE, and posts one exactly when the bootstrapper
      ran and either failed or was followed by a finally script; that status is the last call. */
  lemma OneOutcomeStatus(osName: string, target: string, s: Settings, host: Host)
    ensures var r := Bootstrap(osName, target, s, host);
            var reported := Proceeds(DeviceState(host.listing)) && host.registration.ok
                            && (host.bootstrapper.rc != 0 || host.finallyExists);
            |Select(Terminals, r.calls)| == (if reported then 1 else 0)
            && (reported ==> Select(Terminals, r.calls) == [r.calls[|r.calls| - 1]])
  {
    var r := Bootstrap(osName, target, s, host);
    var st := DeviceState(host.listing);
    if !Proceeds(st) {
      DuplicateStops(osName, target, s, host);
      TerminalsArePosted(r.calls);
    } else if !host.registration.ok {
      RefusedRegistration(osName, target, s, host);
      TerminalsArePosted(r.calls);
    } else if host.bootstrapper.rc != 0 {
      BootstrapperFailure(osName, target, s, host);
    } else if !host.finallyExists {
      FinallyMissing(osName, target, s, host);
      TerminalsArePosted(r.calls);
    } else {
      FinallyRan(osName, target, s, host);
    }
  }

  lemma {:induction false} TerminalsArePosted(calls: seq<Call>)
    ensures Select(Statuses, calls) == [] ==> Select(Terminals, calls) == []
  {
    if calls != [] {
      TerminalsArePosted(calls[..|calls| - 1]);
    }
  }

  /** ztp_finalizer as a function of what the task learns from outside. */
  function Finalizer(osName: string, target: string, s: Settings, host: Host): (r: Run)
    ensures r.end.Raised? <==> !host.finallyExists
    ensures r.end.Returned? && r.end.value.Some? ==> r.end.value.value != 0
  {
    var f := Finalize(s, osName, target, Server(s, host), host);
    match f.result
    case NoScript => Run(f.calls, Raised(TypeError))
    case Ran(rc, err) =>
      if rc != 0 then Run(f.calls + [Status(Error, FinallyFailed(err))], Returned(Some(rc)))
      else Run(f.calls, Returned(None))
  }

  /** ztp_finalizer reports only a failing finally script: ERROR with its stderr, posted
      after FINALLY, and its code returned; a script that exits 0 returns None with no outcome
      status, and a missing one raises before anything is run or posted. */
  lemma FinalizerOutcome(osName: string, target: string, s: Settings, host: Host)
    ensures var r := Finalizer(osName, target, s, host);
            var script := FinallyProgram(s, osName, target, Server(s, host));
            (!host.finallyExists ==> r.calls == [] && r.end == Raised(TypeError))
            && (host.finallyExists ==>
                  Select(Spawns, r.calls) == [Spawn(script)]
                  && Select(Statuses, r.calls)[0] == Status(Finally, FinallyStarted(host.finalizer.pid, script))
                  && Select(Terminals, r.calls)
                     == (if host.finalizer.rc != 0 then [Status(Error, FinallyFailed(host.finalizer.stderr))] else [])
                  && r.end == (if host.finalizer.rc != 0 then Returned(Some(host.finalizer.rc)) else Returned(None)))
  {
    var f := Finalize(s, osName, target, Server(s, host), host);
    FinalizeReports(s, osName, target, Server(s, host), host);
    if host.finallyExists && host.finalizer.rc != 0 {
      SelectPush(f.calls, Status(Error, FinallyFailed(host.finalizer.stderr)));
    }
  }

  /** ztp_finalizer: run only the finally script and report a failure of it. */
  method ZtpFinalizer(osName: string, target: string, s: Settings, host: Host) returns (calls: seq<Call>, end: TaskEnd)
    ensures Run(calls, end) == Finalizer(osName, target, s, host)
  {
    var server := Server(s, host);
    var fin;
    calls, fin := DoFinalize(s, osName, target, server, host);
    if fin.NoScript? {
      return calls, Raised(TypeError);
    }
    if fin.rc != 0 {
      calls := calls + [Status(Error, FinallyFailed(fin.stderr))];
      return calls, Returned(Some(fin.rc));
    }
    end := Returned(None);
  }
}
