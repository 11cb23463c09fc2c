# Aeon-ZTP Cumulus bootstrap, modelled in Dafny

Aeon-ZTP is a zero-touch provisioning server for network switches. When a switch boots for the first time:

1. The server's Celery task `ztp_bootstrapper` checks the device's recorded state and registers the device.
2. It starts an OS-specific bootstrapper program and then an optional user "finally" script.
3. It posts the outcome to the server's device-status API.

For Cumulus Linux, the bootstrapper is the `CumulusBootstrap` class:

1. It waits until the switch accepts an SSH login and posts the switch's facts.
2. It asks the OS selector which image the switch should run.
3. It installs that image, either in band with `cl-img-install` or through the ONIE rescue shell, and reboots the switch when needed.
4. It ends the run through `exit_results`, with exactly one `DONE` or `FAILED` status and the process exit code. A run that an uncaught exception ends posts neither.

The model has seven files:

- `wrappers.dfy`: `Option`.
- `strings.dfy`: the Python string operations used, which are decimal formatting, `' '.join` and `os.path.join`. A split on single spaces is there only as the inverse of the join, to state which words a command line carries.
- `inventory.dfy`: the JSON bodies and HTTP requests of the status API.
- `cumulus.dfy`: the data of the bootstrapper, and one specification function per `CumulusBootstrap` method. Each such function maps the log so far to the new log and to how the phase ends.
- `cumulus_bootstrap.dfy`: the class `Bootstrapper`.
  - It has the run's arguments and environment and a log field `events`, which its methods extend step by step.
  - Each method, including the two polling loops, is proved to produce exactly its specification function's log and result.
- `cumulus_properties.dfy`: what the bootstrapper promises, proved about the specification functions. This covers attempt counts, the order of commands and milestones, and the single closing status.
- `ztp_celery.dfy`: the Celery task. It contains the device-state lookup with Python's subscript errors, the duplicate-run gate, registration, the bootstrapper command line, the finally script, and the status posted for each outcome.

Every interaction with the outside world becomes an input. Each one is a value or a function from the attempt number to an outcome:

- SSH, paramiko and pexpect sessions;
- HTTP replies;
- child processes;
- the file system;
- environment variables.

Each observable action becomes an event in a log:

- a status or facts PUT;
- a connection attempt;
- a command run on the device;
- a line sent to the rescue shell;
- an awaited marker;
- a sleep.

`sys.exit(code)` becomes `Exited(code)`. An exception that nothing catches becomes `Crashed(fault)` in the bootstrapper, or `Raised(error)` in the Celery task.

## Model

| member | source | states |
|---|---|---|
| Strings.NatToString | aeon_ztp/bin/cumulus_bootstrap.py:177 | the countdown is written in decimal digits that read back, left to right, as exactly that number, with a leading '0' only for zero |
| Strings.IntToString | aeon_ztp/bin/cumulus_bootstrap.py:177 | any countdown is written as decimal digits, after a '-' exactly when it is negative, and the text reads back as exactly that number |
| Strings.SplitJoin | aeon_ztp/ztp_celery.py:111 | splitting a space-joined list of space-free words on single spaces gives the words back |
| Strings.PathJoinParts | aeon_ztp/ztp_celery.py:64-65 | `os.path.join(a, b)` starts with `a`, ends with `b`, and adds at most one '/' between them |
| Inventory.StatusUpdate | aeon_ztp/bin/cumulus_bootstrap.py:128-139 | a status update is a PUT to `http://<server>/api/devices/status` whose body has exactly os_name, ip_addr, state and message, and the service decodes exactly the values sent |
| Inventory.FactsUpdate | aeon_ztp/bin/cumulus_bootstrap.py:118-126 | a facts update is a PUT to `http://<server>/api/devices/facts` with exactly the five fact keys, carrying the device address, serial number, hardware model, OS version and OS name given |
| Cumulus.ExitCode | aeon_ztp/bin/cumulus_bootstrap.py:142-148 | the exit code is 0 exactly when the results are ok. A failure exits with `exit_error` when it is set and non-zero, and with 1 otherwise |
| Cumulus.Wire | aeon_ztp/bin/cumulus_bootstrap.py:118-139 | a status event is a PUT to `http://<server>/api/devices/status` whose body reads back as the OS name, target, state name and message text. A facts event is a PUT to `http://<server>/api/devices/facts` carrying the target, the OS name and the event's serial number, hardware model and OS version. Other events send nothing |
| Cumulus.PollDevice | aeon_ztp/bin/cumulus_bootstrap.py:176-203 | the polling loop of wait_for_device; every way it fails through exit_results exits with 1 |
| Cumulus.WaitForDeviceTrace | aeon_ztp/bin/cumulus_bootstrap.py:150-203 | wait_for_device: the credential checks, then the polling loop; every failure it reports exits with 1 |
| Cumulus.Retryable | aeon_ztp/bin/cumulus_bootstrap.py:231-232 | a login that reached the rescue prompt is never retried; the retried outcomes are the "Could not establish connection to host" error and EOF |
| Cumulus.PollRescue | aeon_ztp/bin/cumulus_bootstrap.py:219-247 | the loop of wait_for_onie_rescue; it never crashes, and every way it stops is exit_results with code 1 |
| Cumulus.RequiredOsTrace | aeon_ztp/bin/cumulus_bootstrap.py:255-280 | get_required_os goes on exactly when the selector printed JSON, with that JSON; otherwise it fails the run with exit 1 |
| Cumulus.OnieInstallTrace | aeon_ztp/bin/cumulus_bootstrap.py:282-323 | onie_install returns True when it goes on, and every way it stops is an escaping exception, never an exit_results report |
| Cumulus.RescueInstallTrace | aeon_ztp/bin/cumulus_bootstrap.py:355-376 | the rescue-shell branch of install_os; every failure it reports exits with 1 |
| Cumulus.InstallOsTrace | aeon_ztp/bin/cumulus_bootstrap.py:325-376 | install_os; every failure it reports exits with 1 |
| Cumulus.RebootTrace | aeon_ztp/bin/cumulus_bootstrap.py:390-400 | the reboot step of ensure_os_version; every failure it reports exits with 1 |
| Cumulus.EnsureOsVersionTrace | aeon_ztp/bin/cumulus_bootstrap.py:378-400 | ensure_os_version, including the KeyError of selector JSON without `image`; every failure it reports exits with 1 |
| Cumulus.RunTrace | aeon_ztp/bin/cumulus_bootstrap.py:409-437 | main after argument parsing, including the ValueError of a negative `--init-delay`; a run always stops, by exit or by an exception |
| CumulusBootstrap.Bootstrapper.constructor | aeon_ztp/bin/cumulus_bootstrap.py:105-116 | a bootstrapper starts with its arguments, its environment and an empty log |
| CumulusBootstrap.Bootstrapper.ExitResults | aeon_ztp/bin/cumulus_bootstrap.py:142-148 | appends exactly one DONE or FAILED post carrying the results' message, then exits with the results' code |
| CumulusBootstrap.Bootstrapper.WaitForDevice | aeon_ztp/bin/cumulus_bootstrap.py:150-203 | the credential checks and the polling loop produce exactly the log and result of `WaitForDeviceTrace` |
| CumulusBootstrap.Bootstrapper.WaitForOnieRescue | aeon_ztp/bin/cumulus_bootstrap.py:205-247 | the `countdown >= 0` loop produces exactly the log and result of `PollRescue` |
| CumulusBootstrap.Bootstrapper.GetRequiredOs | aeon_ztp/bin/cumulus_bootstrap.py:255-280 | runs the selector once and returns the parsed JSON, or fails the run with "Unable to load os-select output as JSON" when the output is not JSON, as `RequiredOsTrace` says |
| CumulusBootstrap.Bootstrapper.OnieInstall | aeon_ztp/bin/cumulus_bootstrap.py:282-323 | the rescue-shell session produces exactly the log and result of `OnieInstallTrace` |
| CumulusBootstrap.Bootstrapper.InstallOs | aeon_ztp/bin/cumulus_bootstrap.py:325-376 | the image check, the OS-INSTALL post and the choice of in-band or rescue install match `InstallOsTrace` |
| CumulusBootstrap.Bootstrapper.InstallFromRescueShell | aeon_ztp/bin/cumulus_bootstrap.py:355-376 | onie-select, reboot, the rescue wait, onie_install and the final device wait match `RescueInstallTrace` |
| CumulusBootstrap.Bootstrapper.EnsureOsVersion | aeon_ztp/bin/cumulus_bootstrap.py:378-400 | the selection, the `image` lookup, the install, the reboot below major 3 and its sleep match `EnsureOsVersionTrace` |
| CumulusBootstrap.Bootstrapper.Run | aeon_ztp/bin/cumulus_bootstrap.py:409-437 | main after argument parsing, including the sleep of `--init-delay`, produces exactly the log of `RunTrace` and stops as it does |
| CumulusProperties.DeviceAttempts | aeon_ztp/bin/cumulus_bootstrap.py:176-200 | the closed form of the attempt count: ceil(C/P) for C > 0, 1 otherwise, and always at least one |
| CumulusProperties.DeviceAttemptsStep | aeon_ztp/bin/cumulus_bootstrap.py:193-194 | a refused attempt that leaves the countdown positive leaves exactly one attempt fewer; otherwise it was the last |
| CumulusProperties.PersistentRefusal | aeon_ztp/bin/cumulus_bootstrap.py:176-200 | a device that always refuses the connection gets exactly DeviceAttempts(C, P) attempts, and the run fails with "Failed to connect to target … within reload countdown" and exit 1 |
| CumulusProperties.RefusedThen | aeon_ztp/bin/cumulus_bootstrap.py:179-200 | after k refusals the next attempt decides at once, whatever countdown is left: an authentication error fails "Unauthorized", a reachable device is returned with its facts posted last, and any other error escapes; k + 1 attempts are made |
| CumulusProperties.AttemptsBounded | aeon_ztp/bin/cumulus_bootstrap.py:176-200 | wait_for_device makes between 1 and DeviceAttempts(C, P) attempts and only appends to the log |
| CumulusProperties.OnePostAndSleepPerRetry | aeon_ztp/bin/cumulus_bootstrap.py:176-196 | exactly one AWAIT-ONLINE post per attempt, and one sleep between consecutive attempts and none after the last |
| CumulusProperties.FactsPostedOnSuccess | aeon_ztp/bin/cumulus_bootstrap.py:201-203 | the facts are posted once, as the last event, exactly when the device is returned, and they are the returned device's facts |
| CumulusProperties.CallerMessageKept | aeon_ztp/bin/cumulus_bootstrap.py:177 | with a caller message every AWAIT-ONLINE post carries it instead of the countdown text |
| CumulusProperties.CountdownsAt | aeon_ztp/bin/cumulus_bootstrap.py:177 | the k-th of n countdown messages is the message for countdown C − k·P (the caller's message, when there is one) |
| CumulusProperties.AwaitCountdowns | aeon_ztp/bin/cumulus_bootstrap.py:176-196 | the AWAIT-ONLINE messages of wait_for_device, in order, are exactly one per attempt: the caller's message, or "Timeout remaining: C − k·P seconds" for the k-th attempt |
| CumulusProperties.CredentialsCheckedFirst | aeon_ztp/bin/cumulus_bootstrap.py:152-169 | a missing user name or password fails the run with that message before any AWAIT-ONLINE post; a connection is attempted exactly when both are present |
| CumulusProperties.RescueAttemptsStep | aeon_ztp/bin/cumulus_bootstrap.py:219-234 | each rescue retry consumes one attempt of floor(C/P) + 1, and a negative countdown allows none |
| CumulusProperties.RescuePersistentRefusal | aeon_ztp/bin/cumulus_bootstrap.py:219-247 | a rescue shell that always refuses the connection or closes it gets exactly floor(C/P) + 1 logins (none for C < 0), and the run fails with "not reachable in ONIE rescue mode" |
| CumulusProperties.RescueDecidedAt | aeon_ztp/bin/cumulus_bootstrap.py:219-241 | after k retried logins the next one decides at once: the prompt ends the wait, and any other shell error fails the run naming the error, without a retry |
| CumulusProperties.RescueOnePostPerLogin | aeon_ztp/bin/cumulus_bootstrap.py:219-223 | exactly one AWAIT-ONLINE post per rescue login |
| CumulusProperties.RescueCountdownsAt | aeon_ztp/bin/cumulus_bootstrap.py:220 | the k-th of n rescue messages is "Waiting for boot to ONIE rescue mode. Timeout remaining" for countdown C − k·P |
| CumulusProperties.RescueAwaitCountdowns | aeon_ztp/bin/cumulus_bootstrap.py:219-236 | the AWAIT-ONLINE messages of wait_for_onie_rescue, in order, are exactly one per login, the k-th with countdown C − k·P |
| CumulusProperties.RescueLoginsBounded | aeon_ztp/bin/cumulus_bootstrap.py:219-247 | the rescue wait makes at most floor(C/P) + 1 logins (none for C < 0), at least one when it reaches the shell, and only appends to the log |
| CumulusProperties.DeviceWaitMilestones | aeon_ztp/bin/cumulus_bootstrap.py:176-203 | the polling loop adds at most one milestone, its last event: the FAILED post or the facts |
| CumulusProperties.RescueWaitMilestones | aeon_ztp/bin/cumulus_bootstrap.py:219-247 | the rescue wait adds no milestone when it reaches the shell, and only its FAILED post when it gives up |
| CumulusProperties.ExitReports | aeon_ztp/bin/cumulus_bootstrap.py:142-148 | exit_results adds exactly one DONE or FAILED post, as the last event, and exits 0 exactly for DONE |
| CumulusProperties.PollDeviceReports | aeon_ztp/bin/cumulus_bootstrap.py:176-203 | the device poll either goes on with no DONE or FAILED post, or ends through exit_results |
| CumulusProperties.WaitForDeviceReports | aeon_ztp/bin/cumulus_bootstrap.py:150-203 | the same for wait_for_device, including the credential failures |
| CumulusProperties.PollRescueReports | aeon_ztp/bin/cumulus_bootstrap.py:219-247 | the same for wait_for_onie_rescue |
| CumulusProperties.RequiredOsReports | aeon_ztp/bin/cumulus_bootstrap.py:255-280 | the same for get_required_os |
| CumulusProperties.OnieInstallReports | aeon_ztp/bin/cumulus_bootstrap.py:282-323 | the same for onie_install, whose failures escape without a report |
| CumulusProperties.RescueInstallReports | aeon_ztp/bin/cumulus_bootstrap.py:355-376 | the same for the rescue-shell install |
| CumulusProperties.InstallOsReports | aeon_ztp/bin/cumulus_bootstrap.py:325-376 | the same for install_os |
| CumulusProperties.RebootReports | aeon_ztp/bin/cumulus_bootstrap.py:390-400 | the same for the reboot step, whose negative sleep escapes without a report |
| CumulusProperties.EnsureOsVersionReports | aeon_ztp/bin/cumulus_bootstrap.py:378-400 | the same for ensure_os_version |
| CumulusProperties.RunReports | aeon_ztp/bin/cumulus_bootstrap.py:409-437 | the same for the whole of main |
| CumulusProperties.RunReportsOnce | aeon_ztp/bin/cumulus_bootstrap.py:409-437 | a run always stops. When it exits, it has posted exactly one DONE or FAILED, as its last event, and the code is 0 exactly for DONE. When an exception escapes, it has posted neither |
| CumulusProperties.OnieInstallSteps | aeon_ztp/bin/cumulus_bootstrap.py:282-323 | onie_install does, in order: ONIE-RESCUE, `onie-nos-install <image url>`, expect "installer" (15 s), expect "Please reboot to start installing OS." (180 s), `reboot`, OS-INSTALL. It stops after the step that fails. `reboot` is sent and the run goes on exactly when the prompt and both markers came |
| CumulusProperties.NoImageFailsFirst | aeon_ztp/bin/cumulus_bootstrap.py:325-336 | a missing local image fails the run with only that FAILED post: no OS-INSTALL and no device command |
| CumulusProperties.InstallOsInBand | aeon_ztp/bin/cumulus_bootstrap.py:338-353 | for major 2: OS-INSTALL, then the single `sudo /usr/cumulus/bin/cl-img-install -sf http://<server>/images/cumulus/<image>`. When it fails, one FAILED post carries the command and its results; the run goes on exactly when it succeeds |
| CumulusProperties.RescueReached | aeon_ztp/bin/cumulus_bootstrap.py:355-370 | when the rescue shell is reached, `sudo onie-select -rf` and `sudo reboot` are the only milestones since install_os began its branch |
| CumulusProperties.RescueInstallSteps | aeon_ztp/bin/cumulus_bootstrap.py:355-376 | a successful rescue install does, in order: `sudo onie-select -rf`, `sudo reboot`, every onie_install step, then the facts of the returning device |
| CumulusProperties.RescueInstallWaits | aeon_ztp/bin/cumulus_bootstrap.py:364-376 | in a successful rescue install the rescue wait (300 s, every 10 s: 1 to floor(300/10) + 1 logins, no milestone) runs after `sudo reboot` and the 60 s sleep and before ONIE-RESCUE; after onie_install and another 60 s sleep, wait_for_device(1800, 30) makes 1 to DeviceAttempts(1800, 30) attempts and its only milestone, the last event, is the returning device's facts |
| CumulusProperties.InstallOsFromRescue | aeon_ztp/bin/cumulus_bootstrap.py:325-376 | for any major but 2, install_os after its OS-INSTALL post is the rescue install, waits included, and a successful one is exactly OS-INSTALL followed by the rescue install's milestones |
| CumulusProperties.WaitForDeviceMilestones | aeon_ztp/bin/cumulus_bootstrap.py:150-203 | wait_for_device adds at most one milestone, its last event, which is the facts when it returns a device |
| CumulusProperties.WaitForDeviceAttempts | aeon_ztp/bin/cumulus_bootstrap.py:150-203 | wait_for_device only appends to the log and makes at most DeviceAttempts(C, P) attempts: at least one when it returns a device, none when a credential is missing |
| CumulusProperties.RebootIffBelowThree | aeon_ztp/bin/cumulus_bootstrap.py:390-400 | from major 3 on nothing follows the install. Below 3: OS-REBOOTING and `sudo reboot`, then the `--init-delay` sleep (a negative one raises at once), then wait_for_device(reload_delay, 10) with at most DeviceAttempts(reload_delay, 10) attempts, whose only milestone is its last event, the returning device's facts when it goes on |
| CumulusProperties.NoImageNoInstall | aeon_ztp/bin/cumulus_bootstrap.py:378-386 | an empty selector image runs nothing but the selector: no OS-INSTALL post, no command, no reboot |
| CumulusProperties.VirtualSkipsInstall | aeon_ztp/bin/cumulus_bootstrap.py:420-437 | a negative `--init-delay` raises right after START. Otherwise a virtual device is posted START, its facts and DONE, and exits 0, without the selector, an install or a reboot |
| ZtpCelery.Key | aeon_ztp/ztp_celery.py:46 | `v['key']` has a value exactly for an object holding the key, and raises KeyError for an object without it and TypeError for anything else |
| ZtpCelery.First | aeon_ztp/ztp_celery.py:46 | `v[0]` is the first element of a non-empty list. An empty list or string raises IndexError, and an object raises KeyError |
| ZtpCelery.DeviceState | aeon_ztp/ztp_celery.py:42-49 | a state other than None comes from `items[0]['state']` of the listing, and KeyError never escapes |
| ZtpCelery.IsDuplicate | aeon_ztp/ztp_celery.py:141 | a state counts as a duplicate run only when it is truthy and neither ERROR nor DONE; every other non-empty string state does |
| ZtpCelery.RegistrationRequest | aeon_ztp/ztp_celery.py:150-155 | the registration is a POST to `http://<server>/api/devices` whose body has exactly ip_addr, os_name, state and message: the target, the OS name, REGISTERED and "device registered, waiting for bootstrap start" |
| ZtpCelery.Refused | aeon_ztp/ztp_celery.py:157-160 | a refused registration returns the HTTP status code exactly when the reply is an object with a 'message'; otherwise the lookup raises, KeyError for an object and TypeError for anything else |
| ZtpCelery.Wire | aeon_ztp/ztp_celery.py:34-39 | each status call is a PUT to `http://<server>/api/devices/status` with exactly os_name, ip_addr, state and message, from which the service reads back what was sent. A registration call is a POST to `http://<server>/api/devices` carrying its target and OS name, and the listing read is the GET of the device listing |
| ZtpCelery.BootstrapperCommand | aeon_ztp/ztp_celery.py:98-111 | the command line starts with the `<topdir>/bin/<os_name>_bootstrap*` program and then `--target <target>` |
| ZtpCelery.BootstrapperCommandWords | aeon_ztp/ztp_celery.py:98-112 | the command is the program, `--target`, `--server`, `--topdir`, `-U AEON_TUSER`, `-P AEON_TPASSWD` and `--logfile`, joined by single spaces in that order. It splits back into exactly those words |
| ZtpCelery.JoinOpt | aeon_ztp/ztp_celery.py:101-111 | joining an option as one `'<flag> <value>'` piece gives the same text as joining flag and value as two words |
| ZtpCelery.FinallyUnderTopdir | aeon_ztp/ztp_celery.py:64-65 | the finally script lies under the top directory and is named `finally` |
| ZtpCelery.ProgramShapes | aeon_ztp/ztp_celery.py:64-82 | the finally script sees AEON_LOGFILE, AEON_TARGET and AEON_SERVER and nothing else added to its environment. The bootstrapper gets nothing added |
| ZtpCelery.Finalize | aeon_ztp/ztp_celery.py:63-96 | do_finalize makes no call and gives the bare 0 exactly when there is no finally script |
| ZtpCelery.DoFinalize | aeon_ztp/ztp_celery.py:63-96 | do_finalize, step by step, makes exactly the calls and returns the result of `Finalize` |
| ZtpCelery.FinalizeReports | aeon_ztp/ztp_celery.py:63-96 | the finally script runs only when it exists. Its one post is FINALLY with its pid and path. Its code and stderr come back, and a missing script gives the bare 0 |
| ZtpCelery.Bootstrap | aeon_ztp/ztp_celery.py:133-180 | ztp_bootstrapper reads the device state before anything else |
| ZtpCelery.ZtpBootstrapper | aeon_ztp/ztp_celery.py:133-180 | ztp_bootstrapper, step by step, makes exactly the calls and ends exactly as `Bootstrap` says |
| ZtpCelery.RegistersUnlessDuplicate | aeon_ztp/ztp_celery.py:141-155 | the state is read first. The device is registered exactly when the state is readable and is falsy (None, "" and the like), ERROR or DONE. The re-run warning is logged exactly for DONE |
| ZtpCelery.DuplicateStops | aeon_ztp/ztp_celery.py:141-146 | a non-empty state other than ERROR and DONE logs the duplicate warning and returns None. It registers nothing, starts nothing and posts no status. An unreadable state raises |
| ZtpCelery.RefusedRegistration | aeon_ztp/ztp_celery.py:157-160 | a refused registration starts nothing and posts nothing. It returns the HTTP status code exactly when the reply has a 'message', and raises otherwise |
| ZtpCelery.BootstrapperFailure | aeon_ztp/ztp_celery.py:162-167 | a non-zero bootstrapper code gives exactly one status, ERROR "Error running bootstrapper: <stderr>", posted last, and that code is returned. The finally script is not started |
| ZtpCelery.FinallyMissing | aeon_ztp/ztp_celery.py:66-69 | after a successful bootstrapper, a missing finally script makes the task raise with no status posted |
| ZtpCelery.FinallyRan | aeon_ztp/ztp_celery.py:169-180 | after a successful bootstrapper, the finally script starts second and FINALLY is posted. Then exactly one of DONE (code 0) or ERROR "Error running finally script: <stderr>" is posted last, and the script's code is returned |
| ZtpCelery.DoneOnlyOnSuccess | aeon_ztp/ztp_celery.py:169-180 | DONE is posted exactly when both programs ran and exited 0, and it is then the last call |
| ZtpCelery.OneOutcomeStatus | aeon_ztp/ztp_celery.py:162-180 | at most one ERROR or DONE is posted, and it is the last call. One is posted exactly when the bootstrapper ran and either failed or was followed by a finally script |
| ZtpCelery.Finalizer | aeon_ztp/ztp_celery.py:183-196 | ztp_finalizer raises exactly when there is no finally script, and any code it returns is non-zero |
| ZtpCelery.FinalizerOutcome | aeon_ztp/ztp_celery.py:183-196 | ztp_finalizer posts ERROR only for a failing finally script and returns its code. It returns None on success and raises without a script |
| ZtpCelery.ZtpFinalizer | aeon_ztp/ztp_celery.py:183-196 | ztp_finalizer, step by step, makes exactly the calls and ends as `Finalizer` says |

Counting helpers, the milestone and message projections, the unfolding steps of the two loops and the sequence algebra they need (`Count`, `Push`, `Milestones`, `MilestonesAppend`, `AwaitMessages`, `RetryPrefix`, `DeviceRetried`, `ZtpCelery.Select`, `ZtpCelery.SelectAppend` and the like) are proof helpers and model nothing by themselves.

`Cumulus.LoginUser` and `Cumulus.AwaitMessage` are the two `or` expressions of cumulus_bootstrap.py lines 152 and 177. What they mean for a run is stated by `CredentialsCheckedFirst`, `CallerMessageKept` and `CountdownsAt`.

## Left out

- `cli_parse` and both `setup_logging` functions are left out: argument parsing and logging are plumbing. The parsed arguments are an input (`CliArgs`). Log lines are not modelled, except the two warnings of `ztp_bootstrapper`.
- HTTP, SSH (paramiko, pexpect `pxssh`), `subprocess`, `socket` and the file system are inputs: `World` for the bootstrapper and `Host` for the Celery task. `get_server_ipaddr` is left out, and its answer is `Host.serverIp`.
- `dev.api.execute` is assumed never to raise: it always returns `(all_good, results)`. A dropped connection during one of the two unchecked `sudo reboot` commands (cumulus_bootstrap.py:363 and :396) would end the run with an exception and no report. The model does not produce that run.
- Sleeps are `Sleep(seconds)` events. Time does not pass in the model.
- `semver.parse_version_info` is not modelled. The major version is an input, and a malformed version string is `Crashed(BadVersion)`.
- The contents of the facts PUT come from `aeon.cumulus.device.Device`, which is not part of this model.
- Cumulus.EnsureOsVersionTrace: selector JSON without `image` is `Crashed(NoImageKey)`, the KeyError at `os_install['image']`. JSON that is not an object is treated the same way, although Python raises TypeError there. An `image` value that is neither a string nor null is not modelled.
- `pxssh` prompt handling and the closing of sessions are not modelled. Only the login outcome and the two markers are.
- The `exit_error` argument of `exit_results` is modelled in `ExitCode`, but no caller sets it, so runs always exit 1 on failure.
- The Celery task and the bootstrapper are modelled with Python 2 semantics. The captured `stderr` is text, so "Error running bootstrapper: {}" and "Error running finally script: {}" (ztp_celery.py:166 and :173) carry it as is; Python 3 would format bytes as `b'...'`. When neither `--user` nor the user variable names a user, `os.getenv(None)` returns None and is taken as an unset variable; Python 3 would raise there.
- `Settings` holds strings, so unset `AEON_*` variables are not modelled. An unset `AEON_HTTP_PORT` would appear as "None" in the server address. An unset `AEON_LOGFILE` would make `logging.FileHandler` raise (ztp_celery.py:55) before the state is read. An unset `AEON_TOPDIR` would make `os.path.join` raise in `do_finalize` (ztp_celery.py:64).
- Strings.PathJoinParts: `os.path.join` with an absolute second component, which would discard the first, is not modelled. The model assumes that the image name and `os_name` are relative, so the join keeps the first component.
- ZtpCelery.DeviceState: an HTTP reply that is not JSON (`r.json()` raising) is not modelled.
- ZtpCelery.Refused: a refused registration whose reply is not JSON (`got.json()` raising, ztp_celery.py:158) is not modelled.
- HTTP request failures are not modelled. A `requests` call that raises, such as a refused connection or a timeout, does not occur in the model, and the status code of a PUT is ignored, as the source ignores it.
- The main topdir check calls `exit_results` with no device, which crashes in `post_device_status`. It is modelled as `Crashed(NoTarget)` with no status.
- A rescue-marker timeout or EOF in `onie_install` is not caught by its `except pxssh.ExceptionPxssh`. It is modelled as a crash with no FAILED post.
