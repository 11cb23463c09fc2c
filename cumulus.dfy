/** The vocabulary of the Cumulus bootstrapper (aeon_ztp/bin/cumulus_bootstrap.py) and, for each of
    its methods, a function giving the log that method leaves, from the log it started with, and
    how it ends. The class in CumulusBootstrap is proved to behave exactly so; CumulusProperties
    proves what these functions promise.

    Messages, device commands, shell lines and crash causes are kept as small datatypes; their
    `Text()` gives the exact string the source writes. */
module Cumulus {
  import opened Wrappers
  import opened Strings
  import Inventory

  const OsName := "cumulus"

  /** The `state` values this program writes to the status service. */
  datatype State = Start | AwaitOnline | OnieRescue | OsInstall | OsRebooting | Done | Failed
  {
    function Name(): string {
      match this
      case Start => "START"
      case AwaitOnline => "AWAIT-ONLINE"
      case OnieRescue => "ONIE-RESCUE"
      case OsInstall => "OS-INSTALL"
      case OsRebooting => "OS-REBOOTING"
      case Done => "DONE"
      case Failed => "FAILED"
    }
  }

  function ImageUrl(server: string, image: string): string {
    "http://" + server + "/images/" + OsName + "/" + image
  }

  /** The `message` of each status post. */
  datatype Message =
    | Started
    | Caller(text: string)
    | Awaiting(countdown: int)
    | UserMissing
    | PasswdMissing
    | Unauthorized
    | ConnectTimeout(target: string)
    | RescueAwaiting(countdown: int)
    | RescueError(target: string, error: string)
    | RescueTimeout(target: string)
    | SelectorNotJson(stdout: string)
    | ImageMissing(path: string)
    | Installing(image: string)
    | CommandFailed(command: string, results: string)
    | Downloading
    | Verified
    | Rebooting
    | Completed
  {
    function Text(): string {
      match this
      case Started => "bootstrap started, waiting for device access"
      case Caller(text) => text
      case Awaiting(c) => "OS installation in progress. Timeout remaining: " + IntToString(c) + " seconds"
      case UserMissing => "login user-name missing"
      case PasswdMissing => "login user-password missing"
      case Unauthorized => "Unauthorized - check user/password"
      case ConnectTimeout(t) => "Failed to connect to target " + t + " within reload countdown"
      case RescueAwaiting(c) =>
        "Cumulus installation in progress. Waiting for boot to ONIE rescue mode. Timeout remaining: "
        + IntToString(c) + " seconds"
      case RescueError(t, e) => "Error accessing " + t + " in ONIE rescue mode: " + e + "."
      case RescueTimeout(t) => "Device " + t + " not reachable in ONIE rescue mode within reload countdown."
      case SelectorNotJson(out) => "Unable to load os-select output as JSON: " + out
      case ImageMissing(p) => "image file does not exist: " + p
      case Installing(image) => "Installing Cumulus image=[" + image + "] ... this can take up to 30 min."
      case CommandFailed(cmd, res) => "Unable to run command: " + cmd + ". Error message: " + res
      case Downloading => "Cumulus download and verification in progress."
      case Verified => "Cumulus download completed and verified, reboot initiated."
      case Rebooting => "OS install completed, now rebooting ... please be patient"
      case Completed => "bootstrap completed OK"
    }
  }

  /** The commands run on the device with `dev.api.execute([...])`. */
  datatype Command = InBandInstall(server: string, image: string) | OnieSelect | Reboot
  {
    function Text(): string {
      match this
      case InBandInstall(server, image) => "sudo /usr/cumulus/bin/cl-img-install -sf " + ImageUrl(server, image)
      case OnieSelect => "sudo onie-select -rf"
      case Reboot => "sudo reboot"
    }
  }

  /** The lines sent to the ONIE rescue shell. */
  datatype ShellLine = NosInstall(server: string, image: string) | RebootLine
  {
    function Text(): string {
      match this
      case NosInstall(server, image) => "onie-nos-install " + ImageUrl(server, image)
      case RebootLine => "reboot"
    }
  }

  /** The two markers the rescue-shell installer prints. */
  datatype Pattern = InstallerStarted | ReadyToReboot
  {
    function Text(): string {
      match this
      case InstallerStarted => "installer"
      case ReadyToReboot => "Please reboot to start installing OS."
    }
  }

  /** `dev.facts`; osMajor is the major component semver parses from osVersion (None when it
      is not a semantic version). */
  datatype Facts = Facts(serialNumber: string, hwModel: string, osVersion: string, virtual: bool, osMajor: Option<nat>)

  /** What the bootstrapper does that can be observed from outside. */
  datatype Event =
    | StatusPut(state: State, message: Message)           // PUT /api/devices/status for the target
    | FactsPut(facts: Facts)                              // PUT /api/devices/facts
    | Probe(user: string, passwd: string, timeout: int)   // Device(target, user, passwd, timeout)
    | ShellLogin(user: string)                            // pxssh login to the rescue shell, newline, prompt
    | OsSelect(facts: Facts)                              // aztp_os_selector.py run on the facts
    | Exec(command: Command)                              // dev.api.execute([command])
    | SendLine(line: ShellLine)                           // ssh.sendline(line)
    | Expect(pattern: Pattern, limit: nat)                // ssh.expect(pattern, timeout=limit)
    | Sleep(seconds: int)                                 // time.sleep(seconds)

  datatype ErrorType = Login | Install

  /** The `results` dict handed to exit_results. */
  datatype Results = Success | Failure(errorType: ErrorType, message: Message)

  /** Exceptions that escape the program (the interpreter then exits with status 1). */
  datatype Fault =
    | NoTarget               // exit_results with neither dev nor target: `dev.target` on None
    | Unserialisable         // exit_results given the exception object itself as the message
    | ShellClosed            // pexpect EOF outside the rescue wait
    | MarkerMissing(pattern: Pattern)  // pexpect TIMEOUT or EOF while expecting a marker
    | BadVersion             // semver rejects os_version
    | ProbeFault(text: string)  // any other exception from Device(...)
    | NegativeSleep          // time.sleep given a negative --init-delay raises ValueError
    | NoImageKey             // `os_install['image']` on selector JSON without that entry

  /** How the process ends: sys.exit(code), or an exception nobody catches. */
  datatype Stop = Exited(code: int) | Crashed(fault: Fault)

  /** A phase either hands a value to the next phase or ends the process. */
  datatype Step<T> = Next(value: T) | Stopped(stop: Stop)

  /** The log after a phase, and how the phase ended. */
  datatype Trace<T> = Trace(events: seq<Event>, step: Step<T>)

  /** The parsed command line. */
  datatype CliArgs = CliArgs(
    target: string, server: string, topdir: string,
    user: Option<string>, envUser: Option<string>, envPasswd: string,
    reloadDelay: int, initDelay: int)

  /** Outcome of one Device(...) connection attempt. */
  datatype DeviceProbe = Reached(facts: Facts) | NoValidConnections | AuthenticationRejected | ProbeError(text: string)

  /** Outcome of one pxssh login to the rescue shell: the prompt, an ExceptionPxssh with its
      text, or EOF. */
  datatype RescueAttempt = RescuePrompt | ShellError(text: string) | ShellEof

  /** Outcome of one `ssh.expect(marker, timeout)`. */
  datatype Marker = Matched | MarkerTimeout | MarkerEof

  datatype OnieSession = OnieSession(login: RescueAttempt, installer: Marker, ready: Marker)

  /** `dev.api.execute([...])` returns (all_good, results). */
  datatype ExecResult = ExecResult(allGood: bool, results: string)

  /** What aztp_os_selector.py printed: JSON, or text json.loads rejects. */
  datatype Selection = Json(reply: SelectorReply) | NotJson(stdout: string)

  /** The parsed selector output: an object whose 'image' is a string or null, or any other
      JSON value (a list, a number, an object without 'image'), which `os_install['image']`
      cannot subscript. */
  datatype SelectorReply = ImageEntry(image: Option<string>) | NoImageEntry

  /** Everything outside the program: the file system, the device's answers at each wait
      (indexed by attempt), the selector, command results and the rescue-shell session. */
  datatype World = World(
    topdirExists: bool,
    files: set<string>,
    firstWait: nat -> DeviceProbe,
    selector: Facts -> Selection,
    execute: Command -> ExecResult,
    rescue: nat -> RescueAttempt,
    onie: OnieSession,
    installWait: nat -> DeviceProbe,
    rebootWait: nat -> DeviceProbe)

  // ----- exit_results -----

  function ExitEvent(r: Results): Event {
    if r.Success? then StatusPut(Done, Completed) else StatusPut(Failed, r.message)
  }

  /** `sys.exit(0)` on success, else `sys.exit(exit_error or 1)`: zero exactly on success. */
  function ExitCode(r: Results, exitError: Option<int>): (code: int)
    ensures code == 0 <==> r.Success?
    ensures r.Failure? && exitError.Some? && exitError.value != 0 ==> code == exitError.value
    ensures r.Failure? && (exitError.None? || exitError.value == 0) ==> code == 1
  {
    if r.Success? then 0
    else if exitError.Some? && exitError.value != 0 then exitError.value
    else 1
  }

  /** exit_results(results) after `log`: one DONE or FAILED post, then the exit. Every caller
      in the source leaves exit_error unset. */
  function ExitTrace<T>(log: seq<Event>, r: Results): Trace<T> {
    Trace(log + [ExitEvent(r)], Stopped(Exited(ExitCode(r, None))))
  }

  function Fail<T>(log: seq<Event>, kind: ErrorType, message: Message): Trace<T> {
    ExitTrace(log, Failure(kind, message))
  }

  // ----- wait_for_device -----

  function Getenv(env: map<string, string>, name: Option<string>): Option<string> {
    if name.Some? && name.value in env then Some(env[name.value]) else None
  }

  /** A Python string that is neither None nor empty. */
  predicate Present(o: Option<string>) {
    o.Some? && o.value != []
  }

  /** `cli_args.user or os.getenv(cli_args.env_user)`. */
  function LoginUser(a: CliArgs, env: map<string, string>): (u: Option<string>)
    ensures Present(a.user) ==> u == a.user
    ensures !Present(a.user) ==> u == Getenv(env, a.envUser)
  {
    if Present(a.user) then a.user else Getenv(env, a.envUser)
  }

  function LoginPasswd(a: CliArgs, env: map<string, string>): Option<string> {
    Getenv(env, Some(a.envPasswd))
  }

  /** `msg or 'OS installation in progress. Timeout remaining: ...'`. */
  function AwaitMessage(msg: Option<string>, countdown: int): (m: Message)
    ensures m.Caller? <==> Present(msg)
    ensures m.Caller? ==> m.text == msg.value
    ensures m.Awaiting? <==> !Present(msg)
    ensures m.Awaiting? ==> m.countdown == countdown
  {
    if Present(msg) then Caller(msg.value) else Awaiting(countdown)
  }

  /** The polling loop of wait_for_device from attempt `i` on, with `countdown` left, after
      `log`: post AWAIT-ONLINE and try to connect; retry a refused connection (after
      sleeping) while the countdown, decremented after the attempt, stays positive. */
  function PollDevice(log: seq<Event>, target: string, user: string, passwd: string, countdown: int, poll: int,
                      msg: Option<string>, probe: nat -> DeviceProbe, i: nat): (t: Trace<Facts>)
    requires poll > 0
    ensures t.step.Stopped? && t.step.stop.Exited? ==> t.step.stop.code == 1
    decreases if countdown > 0 then countdown else 0
  {
    var tried := log + [StatusPut(AwaitOnline, AwaitMessage(msg, countdown)), Probe(user, passwd, poll)];
    match probe(i)
    case Reached(f) => Trace(tried + [FactsPut(f)], Next(f))
    case AuthenticationRejected => Fail(tried, Login, Unauthorized)
    case NoValidConnections =>
      if countdown - poll <= 0 then Fail(tried, Login, ConnectTimeout(target))
      else PollDevice(tried + [Sleep(poll)], target, user, passwd, countdown - poll, poll, msg, probe, i + 1)
    case ProbeError(e) => Trace(tried, Stopped(Crashed(ProbeFault(e))))
  }

  /** wait_for_device(countdown, poll_delay, msg) after `log`: the credential checks, then the
      polling loop. */
  function WaitForDeviceTrace(log: seq<Event>, a: CliArgs, env: map<string, string>, countdown: int, poll: int,
                              msg: Option<string>, probe: nat -> DeviceProbe): (t: Trace<Facts>)
    requires poll > 0
    ensures t.step.Stopped? && t.step.stop.Exited? ==> t.step.stop.code == 1
  {
    var user := LoginUser(a, env);
    var passwd := LoginPasswd(a, env);
    if !Present(user) then Fail(log, Login, UserMissing)
    else if !Present(passwd) then Fail(log, Login, PasswdMissing)
    else PollDevice(log, a.target, user.value, passwd.value, countdown, poll, msg, probe, 0)
  }

  // ----- wait_for_onie_rescue -----

  const NoConnectionText := "Could not establish connection to host"

  /** The failures wait_for_onie_rescue retries: that exact ExceptionPxssh text, or EOF. */
  predicate Retryable(r: RescueAttempt)
    ensures Retryable(r) ==> !r.RescuePrompt?
  {
    r.ShellEof? || (r.ShellError? && r.text == NoConnectionText)
  }

  /** The loop of wait_for_onie_rescue from attempt `i` on, after `log`: while countdown >= 0,
      post AWAIT-ONLINE and log in; retry (after sleeping) only a refused connection or EOF. */
  function PollRescue(log: seq<Event>, target: string, countdown: int, poll: int, user: string,
                      login: nat -> RescueAttempt, i: nat): (t: Trace<()>)
    requires poll > 0
    ensures t.step.Stopped? ==> t.step.stop == Exited(1)
    decreases if countdown >= 0 then countdown + 1 else 0
  {
    if countdown < 0 then Fail(log, Login, RescueTimeout(target))
    else
      var tried := log + [StatusPut(AwaitOnline, RescueAwaiting(countdown)), ShellLogin(user)];
      var attempt := login(i);
      if attempt.RescuePrompt? then Trace(tried, Next(()))
      else if Retryable(attempt) then PollRescue(tried + [Sleep(poll)], target, countdown - poll, poll, user, login, i + 1)
      else Fail(tried, Login, RescueError(target, attempt.text))
  }

  // ----- get_required_os -----

  /** get_required_os after `log`: run the selector on the facts and hand back the parsed
      JSON; output that is not JSON fails the run. */
  function RequiredOsTrace(log: seq<Event>, facts: Facts, selector: Facts -> Selection): (t: Trace<SelectorReply>)
    ensures t.step.Next? <==> selector(facts).Json?
    ensures t.step.Next? ==> t.step.value == selector(facts).reply
    ensures t.step.Stopped? ==> t.step.stop == Exited(1)
  {
    var ran := log + [OsSelect(facts)];
    match selector(facts)
    case Json(reply) => Trace(ran, Next(reply))
    case NotJson(out) => Fail(ran, Install, SelectorNotJson(out))
  }

  // ----- onie_install -----

  /** onie_install after `log`: post ONIE-RESCUE, log in, start the installer, wait for its two
      markers, send reboot and post OS-INSTALL. Its failures all escape unreported: a login
      ExceptionPxssh is caught but handed to exit_results as the exception object, which the
      status PUT cannot serialise; EOF and marker timeouts are not caught at all. */
  function OnieInstallTrace(log: seq<Event>, server: string, image: string, user: string, s: OnieSession): (t: Trace<bool>)
    ensures t.step.Stopped? ==> t.step.stop.Crashed?
    ensures t.step.Next? ==> t.step.value
  {
    var loggedIn := log + [StatusPut(OnieRescue, Downloading), ShellLogin(user)];
    match s.login
    case ShellError(_) => Trace(loggedIn, Stopped(Crashed(Unserialisable)))
    case ShellEof => Trace(loggedIn, Stopped(Crashed(ShellClosed)))
    case RescuePrompt =>
      var started := loggedIn + [SendLine(NosInstall(server, image)), Expect(InstallerStarted, 15)];
      if s.installer != Matched then Trace(started, Stopped(Crashed(MarkerMissing(InstallerStarted))))
      else
        var verified := started + [Expect(ReadyToReboot, 180)];
        if s.ready != Matched then Trace(verified, Stopped(Crashed(MarkerMissing(ReadyToReboot))))
        else Trace(verified + [SendLine(RebootLine), Sleep(2), StatusPut(OsInstall, Verified)], Next(true))
  }

  // ----- install_os -----

  function ImagePath(topdir: string, image: string): string {
    PathJoin(PathJoin(PathJoin(topdir, "vendor_images"), OsName), image)
  }

  /** The branch of install_os for every major version except 2, after `log`: select ONIE
      rescue mode, reboot, wait for the rescue shell, install from it, wait for the new OS. */
  function RescueInstallTrace(log: seq<Event>, a: CliArgs, env: map<string, string>, image: string, w: World): (t: Trace<()>)
    ensures t.step.Stopped? && t.step.stop.Exited? ==> t.step.stop.code == 1
  {
    var res := w.execute(OnieSelect);
    var selected := log + [Exec(OnieSelect)];
    if !res.allGood then Fail(selected, Install, CommandFailed(OnieSelect.Text(), res.results))
    else
      var rescue := PollRescue(selected + [Exec(Reboot), Sleep(60)], a.target, 300, 10, "root", w.rescue, 0);
      match rescue.step
      case Stopped(s) => Trace(rescue.events, Stopped(s))
      case Next(_) =>
        var onie := OnieInstallTrace(rescue.events, a.server, image, "root", w.onie);
        match onie.step
        case Stopped(s) => Trace(onie.events, Stopped(s))
        case Next(_) =>
          var back := WaitForDeviceTrace(onie.events + [Sleep(60)], a, env, 1800, 30, None, w.installWait);
          Trace(back.events, if back.step.Stopped? then Stopped(back.step.stop) else Next(()))
  }

  /** install_os after `log`: the image must exist locally; post OS-INSTALL; the major version
      picks the in-band command (2) or the rescue-shell strategy (anything else). */
  function InstallOsTrace(log: seq<Event>, a: CliArgs, env: map<string, string>, facts: Facts, image: string, w: World): (t: Trace<()>)
    ensures t.step.Stopped? && t.step.stop.Exited? ==> t.step.stop.code == 1
  {
    var path := ImagePath(a.topdir, image);
    if path !in w.files then Fail(log, Install, ImageMissing(path))
    else
      var posted := log + [StatusPut(OsInstall, Installing(image))];
      match facts.osMajor
      case None => Trace(posted, Stopped(Crashed(BadVersion)))
      case Some(major) =>
        if major == 2 then
          var cmd := InBandInstall(a.server, image);
          var res := w.execute(cmd);
          if !res.allGood then Fail(posted + [Exec(cmd)], Install, CommandFailed(cmd.Text(), res.results))
          else Trace(posted + [Exec(cmd)], Next(()))
        else RescueInstallTrace(posted, a, env, image, w)
  }

  // ----- ensure_os_version -----

  /** The tail of ensure_os_version after an install: below major 3, post OS-REBOOTING,
      reboot, sleep --init-delay seconds (a negative delay makes time.sleep raise) and wait for
      the device again. */
  function RebootTrace(log: seq<Event>, a: CliArgs, env: map<string, string>, facts: Facts, w: World): (t: Trace<()>)
    ensures t.step.Stopped? && t.step.stop.Exited? ==> t.step.stop.code == 1
  {
    match facts.osMajor
    case None => Trace(log, Stopped(Crashed(BadVersion)))
    case Some(major) =>
      if major < 3 then
        var rebooted := log + [StatusPut(OsRebooting, Rebooting), Exec(Reboot)];
        if a.initDelay < 0 then Trace(rebooted, Stopped(Crashed(NegativeSleep)))
        else
          var back := WaitForDeviceTrace(rebooted + [Sleep(a.initDelay)], a, env, a.reloadDelay, 10, None, w.rebootWait);
          Trace(back.events, if back.step.Stopped? then Stopped(back.step.stop) else Next(()))
      else Trace(log, Next(()))
  }

  /** ensure_os_version after `log`: ask the selector; install only when it names an image.
      Selector JSON without an 'image' entry makes the subscript raise. */
  function EnsureOsVersionTrace(log: seq<Event>, a: CliArgs, env: map<string, string>, facts: Facts, w: World): (t: Trace<()>)
    ensures t.step.Stopped? && t.step.stop.Exited? ==> t.step.stop.code == 1
  {
    var sel := RequiredOsTrace(log, facts, w.selector);
    match sel.step
    case Stopped(s) => Trace(sel.events, Stopped(s))
    case Next(NoImageEntry) => Trace(sel.events, Stopped(Crashed(NoImageKey)))
    case Next(ImageEntry(image)) =>
      if !Present(image) then Trace(sel.events, Next(()))
      else
        var installed := InstallOsTrace(sel.events, a, env, facts, image.value, w);
        if installed.step.Stopped? then installed
        else RebootTrace(installed.events, a, env, facts, w)
  }

  // ----- main -----

  const AccessMessage := "Waiting for device access"

  /** main after `log`: with a topdir that is not a directory, exit_results is called with
      neither a device nor a target, and building the status PUT raises; otherwise post START,
      sleep --init-delay seconds (a negative delay makes time.sleep raise), wait for the device,
      bring a physical device to the required OS, and report DONE. */
  function RunTrace(log: seq<Event>, a: CliArgs, env: map<string, string>, w: World): (t: Trace<()>)
    ensures t.step.Stopped?
  {
    if !w.topdirExists then Trace(log, Stopped(Crashed(NoTarget)))
    else if a.initDelay < 0 then Trace(log + [StatusPut(Start, Started)], Stopped(Crashed(NegativeSleep)))
    else
      var first := WaitForDeviceTrace(log + [StatusPut(Start, Started), Sleep(a.initDelay)],
                                      a, env, a.reloadDelay, 10, Some(AccessMessage), w.firstWait);
      match first.step
      case Stopped(s) => Trace(first.events, Stopped(s))
      case Next(facts) =>
        if facts.virtual then ExitTrace(first.events, Success)
        else
          var ensured := EnsureOsVersionTrace(first.events, a, env, facts, w);
          if ensured.step.Stopped? then ensured
          else ExitTrace(ensured.events, Success)
  }

  /** The HTTP request behind a status or facts event of a run on `target`. */
  function Wire(server: string, target: string, e: Event): (r: Option<Inventory.Request>)
    ensures e.StatusPut? ==>
              r.Some? && r.value.Put? && r.value.url == "http://" + server + "/api/devices/status" &&
              r.value.body.JObj? && r.value.body.fields.Keys == Inventory.StatusKeys &&
              Inventory.DecodeStatus(r.value.body)
              == Some(Inventory.StatusFields(OsName, target, Some(e.state.Name()), Some(e.message.Text())))
    ensures e.FactsPut? ==>
              r.Some? && r.value.Put? && r.value.url == "http://" + server + "/api/devices/facts" &&
              r.value.body.JObj? && r.value.body.fields.Keys == Inventory.FactsKeys &&
              r.value.body.fields["ip_addr"] == Inventory.JStr(target) &&
              r.value.body.fields["os_name"] == Inventory.JStr(OsName) &&
              r.value.body.fields["serial_number"] == Inventory.JStr(e.facts.serialNumber) &&
              r.value.body.fields["hw_model"] == Inventory.JStr(e.facts.hwModel) &&
              r.value.body.fields["os_version"] == Inventory.JStr(e.facts.osVersion)
    ensures !e.StatusPut? && !e.FactsPut? ==> r.None?
  {
    match e
    case StatusPut(state, message) => Some(Inventory.StatusUpdate(server, OsName, target, Some(state.Name()), Some(message.Text())))
    case FactsPut(f) => Some(Inventory.FactsUpdate(server, target, f.serialNumber, f.hwModel, f.osVersion, OsName))
    case _ => None
  }
}
