/** The CumulusBootstrap class of aeon_ztp/bin/cumulus_bootstrap.py. Its methods run the
    bootstrap step by step, appending each observable action to `events`; every method is
    proved to leave exactly the log the matching function of module Cumulus gives for the log
    it started from, and to end the same way. A `Stopped` result stands for sys.exit or an
    uncaught exception: the caller returns it at once, so nothing runs afterwards. */
module CumulusBootstrap {
  import opened Wrappers
  import opened Cumulus

  class Bootstrapper {
    const args: CliArgs
    /** The process environment read by os.getenv. */
    const environ: map<string, string>
    /** What the run has done so far, oldest first. */
    var events: seq<Event>

    constructor (args: CliArgs, environ: map<string, string>)
      ensures this.args == args && this.environ == environ && events == []
    {
      this.args := args;
      this.environ := environ;
      events := [];
    }

    /** exit_results: post DONE or FAILED once, then exit. */
    method ExitResults(results: Results, exitError: Option<int>) returns (stop: Stop)
      modifies this
      ensures events == old(events) + [ExitEvent(results)]
      ensures stop == Exited(ExitCode(results, exitError))
    {
      if results.Success? {
        events := events + [StatusPut(Done, Completed)];
        stop := Exited(0);
      } else {
        events := events + [StatusPut(Failed, results.message)];
        stop := Exited(if exitError.Some? && exitError.value != 0 then exitError.value else 1);
      }
    }

    /** wait_for_device: check the credentials, then poll until the device answers. */
    method WaitForDevice(countdown: int, pollDelay: int, msg: Option<string>, probe: nat -> DeviceProbe)
      returns (r: Step<Facts>)
      requires pollDelay > 0
      modifies this
      ensures events == WaitForDeviceTrace(old(events), args, environ, countdown, pollDelay, msg, probe).events
      ensures r == WaitForDeviceTrace(old(events), args, environ, countdown, pollDelay, msg, probe).step
    {
      var user := LoginUser(args, environ);
      var passwd := LoginPasswd(args, environ);
      if !Present(user) {
        var s := ExitResults(Failure(Login, UserMissing), None);
        return Stopped(s);
      }
      if !Present(passwd) {
        var s := ExitResults(Failure(Login, PasswdMissing), None);
        return Stopped(s);
      }
      ghost var whole := PollDevice(events, args.target, user.value, passwd.value, countdown, pollDelay, msg, probe, 0);
      var c, i := countdown, 0;
      while true
        invariant PollDevice(events, args.target, user.value, passwd.value, c, pollDelay, msg, probe, i) == whole
        decreases if c > 0 then c else 0
      {
        events := events + [StatusPut(AwaitOnline, AwaitMessage(msg, c)), Probe(user.value, passwd.value, pollDelay)];
        match probe(i)
        case Reached(f) =>
          events := events + [FactsPut(f)];
          return Next(f);
        case AuthenticationRejected =>
          var s := ExitResults(Failure(Login, Unauthorized), None);
          return Stopped(s);
        case ProbeError(e) =>
          return Stopped(Crashed(ProbeFault(e)));
        case NoValidConnections =>
          if c - pollDelay <= 0 {
            var s := ExitResults(Failure(Login, ConnectTimeout(args.target)), None);
            return Stopped(s);
          }
          events := events + [Sleep(pollDelay)];
          c, i := c - pollDelay, i + 1;
      }
    }

    /** wait_for_onie_rescue: while the countdown is not negative, try to reach the rescue
        shell; only a refused connection or EOF is retried. */
    method WaitForOnieRescue(countdown: int, pollDelay: int, user: string, login: nat -> RescueAttempt)
      returns (r: Step<()>)
      requires pollDelay > 0
      modifies this
      ensures events == PollRescue(old(events), args.target, countdown, pollDelay, user, login, 0).events
      ensures r == PollRescue(old(events), args.target, countdown, pollDelay, user, login, 0).step
    {
      ghost var whole := PollRescue(events, args.target, countdown, pollDelay, user, login, 0);
      var c, i := countdown, 0;
      while c >= 0
        invariant PollRescue(events, args.target, c, pollDelay, user, login, i) == whole
        decreases if c >= 0 then c + 1 else 0
      {
        events := events + [StatusPut(AwaitOnline, RescueAwaiting(c)), ShellLogin(user)];
        var attempt := login(i);
        if attempt.RescuePrompt? {
          return Next(());
        }
        if !Retryable(attempt) {
          var s := ExitResults(Failure(Login, RescueError(args.target, attempt.text)), None);
          return Stopped(s);
        }
        events := events + [Sleep(pollDelay)];
        c, i := c - pollDelay, i + 1;
      }
      var s := ExitResults(Failure(Login, RescueTimeout(args.target)), None);
      r := Stopped(s);
    }

    /** get_required_os: run the selector and parse what it prints. */
    method GetRequiredOs(facts: Facts, selector: Facts -> Selection) returns (r: Step<SelectorReply>)
      modifies this
      ensures events == RequiredOsTrace(old(events), facts, selector).events
      ensures r == RequiredOsTrace(old(events), facts, selector).step
    {
      events := events + [OsSelect(facts)];
      match selector(facts)
      case Json(reply) =>
        r := Next(reply);
      case NotJson(out) =>
        var s := ExitResults(Failure(Install, SelectorNotJson(out)), None);
        r := Stopped(s);
    }

    /** onie_install: drive the rescue shell through the installer's two markers. */
    method OnieInstall(image: string, user: string, session: OnieSession) returns (r: Step<bool>)
      modifies this
      ensures events == OnieInstallTrace(old(events), args.server, image, user, session).events
      ensures r == OnieInstallTrace(old(events), args.server, image, user, session).step
    {
      events := events + [StatusPut(OnieRescue, Downloading), ShellLogin(user)];
      match session.login
      case ShellError(e) =>
        return Stopped(Crashed(Unserialisable));
      case ShellEof =>
        return Stopped(Crashed(ShellClosed));
      case RescuePrompt =>
      events := events + [SendLine(NosInstall(args.server, image)), Expect(InstallerStarted, 15)];
      if session.installer != Matched {
        return Stopped(Crashed(MarkerMissing(InstallerStarted)));
      }
      events := events + [Expect(ReadyToReboot, 180)];
      if session.ready != Matched {
        return Stopped(Crashed(MarkerMissing(ReadyToReboot)));
      }
      events := events + [SendLine(RebootLine), Sleep(2), StatusPut(OsInstall, Verified)];
      r := Next(true);
    }

    /** install_os: in-band install for major version 2, rescue-shell install otherwise. */
    method InstallOs(facts: Facts, image: string, w: World) returns (r: Step<()>)
      modifies this
      ensures events == InstallOsTrace(old(events), args, environ, facts, image, w).events
      ensures r == InstallOsTrace(old(events), args, environ, facts, image, w).step
    {
      var path := ImagePath(args.topdir, image);
      if path !in w.files {
        var s := ExitResults(Failure(Install, ImageMissing(path)), None);
        return Stopped(s);
      }
      events := events + [StatusPut(OsInstall, Installing(image))];
      if facts.osMajor.None? {
        return Stopped(Crashed(BadVersion));
      }
      if facts.osMajor.value == 2 {
        var cmd := InBandInstall(args.server, image);
        events := events + [Exec(cmd)];
        var res := w.execute(cmd);
        if !res.allGood {
          var s := ExitResults(Failure(Install, CommandFailed(cmd.Text(), res.results)), None);
          return Stopped(s);
        }
        return Next(());
      }
      r := InstallFromRescueShell(image, w);
    }

    /** The branch of install_os for every major version except 2: select ONIE rescue mode,
        reboot into it, install from the rescue shell and wait for the new OS. */
    method InstallFromRescueShell(image: string, w: World) returns (r: Step<()>)
      modifies this
      ensures events == RescueInstallTrace(old(events), args, environ, image, w).events
      ensures r == RescueInstallTrace(old(events), args, environ, image, w).step
    {
      events := events + [Exec(OnieSelect)];
      var res := w.execute(OnieSelect);
      if !res.allGood {
        var s := ExitResults(Failure(Install, CommandFailed(OnieSelect.Text(), res.results)), None);
        return Stopped(s);
      }
      events := events + [Exec(Reboot), Sleep(60)];
      var rescue := WaitForOnieRescue(300, 10, "root", w.rescue);
      if rescue.Stopped? {
        return Stopped(rescue.stop);
      }
      var onie := OnieInstall(image, "root", w.onie);
      if onie.Stopped? {
        return Stopped(onie.stop);
      }
      events := events + [Sleep(60)];
      var back := WaitForDevice(1800, 30, None, w.installWait);
      if back.Stopped? {
        return Stopped(back.stop);
      }
      r := Next(());
    }

    /** ensure_os_version: install the selected image, then reboot below major version 3. */
    method EnsureOsVersion(facts: Facts, w: World) returns (r: Step<()>)
      modifies this
      ensures events == EnsureOsVersionTrace(old(events), args, environ, facts, w).events
      ensures r == EnsureOsVersionTrace(old(events), args, environ, facts, w).step
    {
      var selected := GetRequiredOs(facts, w.selector);
      if selected.Stopped? {
        return Stopped(selected.stop);
      }
      if selected.value.NoImageEntry? {
        return Stopped(Crashed(NoImageKey));
      }
      var image := selected.value.image;
      if !Present(image) {
        return Next(());
      }
      r := InstallOs(facts, image.value, w);
      if r.Stopped? {
        return;
      }
      if facts.osMajor.None? {
        return Stopped(Crashed(BadVersion));
      }
      if facts.osMajor.value < 3 {
        events := events + [StatusPut(OsRebooting, Rebooting), Exec(Reboot)];
        if args.initDelay < 0 {
          return Stopped(Crashed(NegativeSleep));
        }
        events := events + [Sleep(args.initDelay)];
        var back := WaitForDevice(args.reloadDelay, 10, None, w.rebootWait);
        if back.Stopped? {
          return Stopped(back.stop);
        }
      }
      r := Next(());
    }

    /** main, after argument parsing. */
    method Run(w: World) returns (stop: Stop)
      modifies this
      ensures events == RunTrace(old(events), args, environ, w).events
      ensures RunTrace(old(events), args, environ, w).step == Stopped(stop)
    {
      if !w.topdirExists {
        return Crashed(NoTarget);
      }
      events := events + [StatusPut(Start, Started)];
      if args.initDelay < 0 {
        return Crashed(NegativeSleep);
      }
      events := events + [Sleep(args.initDelay)];
      assert events == old(events) + [StatusPut(Start, Started), Sleep(args.initDelay)];
      var first := WaitForDevice(args.reloadDelay, 10, Some(AccessMessage), w.firstWait);
      if first.Stopped? {
        return first.stop;
      }
      var facts := first.value;
      if !facts.virtual {
        var ensured := EnsureOsVersion(facts, w);
        if ensured.Stopped? {
          return ensured.stop;
        }
      }
      stop := ExitResults(Success, None);
    }
  }
}
