/** What the Cumulus bootstrapper promises, proved about the functions of module Cumulus
    (which the methods of CumulusBootstrap.Bootstrapper are proved to follow exactly). */
module CumulusProperties {
  import opened Wrappers
  import opened Cumulus

  // ----- counting events -----

  /** How many events of `s` satisfy `p`. */
  function Count(p: Event -> bool, s: seq<Event>): nat {
    if s == [] then 0 else (if p(s[0]) then 1 else 0) + Count(p, s[1..])
  }

  lemma {:induction false} CountAppend(p: Event -> bool, s: seq<Event>, t: seq<Event>)
    ensures Count(p, s + t) == Count(p, s) + Count(p, t)
  {
    if s == [] {
      assert s + t == t;
    } else {
      assert (s + t)[1..] == s[1..] + t;
      CountAppend(p, s[1..], t);
    }
  }

  lemma CountPair(p: Event -> bool, a: Event, b: Event)
    ensures Count(p, [a, b]) == (if p(a) then 1 else 0) + (if p(b) then 1 else 0)
  {
    assert [b][1..] == [];
    assert Count(p, [b]) == (if p(b) then 1 else 0);
    assert [a, b][1..] == [b];
  }

  lemma CountSingle(p: Event -> bool, e: Event)
    ensures Count(p, [e]) == if p(e) then 1 else 0
  {
    assert [e][1..] == [];
  }

  predicate IsAwait(e: Event) { e.StatusPut? && e.state == AwaitOnline }
  predicate IsProbe(e: Event) { e.Probe? }
  predicate IsSleep(e: Event) { e.Sleep? }
  predicate IsFacts(e: Event) { e.FactsPut? }
  predicate IsLogin(e: Event) { e.ShellLogin? }

  /** Appending one event adds one exactly when it has the counted kind. */
  lemma Push(p: Event -> bool, log: seq<Event>, e: Event)
    ensures Count(p, log + [e]) == Count(p, log) + (if p(e) then 1 else 0)
  {
    CountAppend(p, log, [e]);
    CountSingle(p, e);
  }

  lemma Push2(p: Event -> bool, log: seq<Event>, a: Event, b: Event)
    ensures Count(p, log + [a, b]) == Count(p, log) + (if p(a) then 1 else 0) + (if p(b) then 1 else 0)
  {
    CountAppend(p, log, [a, b]);
    CountPair(p, a, b);
  }

  // ----- wait_for_device -----

  /** The number of connection attempts wait_for_device makes before giving up, in closed
      form: one when the countdown is not positive, else the countdown divided by the poll
      delay, rounded up. */
  function DeviceAttempts(countdown: int, poll: int): (n: nat)
    requires poll > 0
    ensures n >= 1
  {
    if countdown <= 0 then 1 else (countdown + poll - 1) / poll
  }

  /** The quotient is the only q with y == q * d + r and 0 <= r < d. */
  lemma DivUnique(y: int, d: int, q: int, r: int)
    requires d > 0 && 0 <= r < d && y == q * d + r
    ensures y / d == q
  {
    var q0, r0 := y / d, y % d;
    assert y == q0 * d + r0;
    if q0 < q {
      assert q * d - q0 * d == (q - q0) * d;
      MulAtLeast(q - q0, d);
    } else if q0 > q {
      assert q0 * d - q * d == (q0 - q) * d;
      MulAtLeast(q0 - q, d);
    }
  }

  lemma MulAtLeast(k: int, d: int)
    requires k >= 1 && d > 0
    ensures k * d >= d
  {
    assert k * d == (k - 1) * d + d;
    assert (k - 1) * d >= 0;
  }

  lemma DeviceAttemptsStep(countdown: int, poll: int)
    requires poll > 0
    ensures countdown - poll <= 0 ==> DeviceAttempts(countdown, poll) == 1
    ensures countdown - poll > 0 ==> DeviceAttempts(countdown, poll) == 1 + DeviceAttempts(countdown - poll, poll)
  {
    if countdown - poll > 0 {
      var x := countdown - poll - 1;
      var q, r := x / poll, x % poll;
      assert x == q * poll + r;
      DivUnique(countdown + poll - 1, poll, q + 2, r);
      DivUnique(countdown - 1, poll, q + 1, r);
    } else if countdown > 0 {
      DivUnique(countdown + poll - 1, poll, 1, countdown - 1);
    }
  }

  /** A device that keeps refusing the connection: wait_for_device makes exactly
      DeviceAttempts(countdown, poll) attempts and fails with the connect-timeout message. */
  lemma {:induction false} PersistentRefusal(log: seq<Event>, target: string, user: string, passwd: string,
                                             countdown: int, poll: int, msg: Option<string>,
                                             probe: nat -> DeviceProbe, i: nat)
    requires poll > 0
    requires forall j: nat :: i <= j ==> probe(j) == NoValidConnections
    ensures var t := PollDevice(log, target, user, passwd, countdown, poll, msg, probe, i);
            && Count(IsProbe, t.events) == Count(IsProbe, log) + DeviceAttempts(countdown, poll)
            && t.events[|t.events| - 1] == StatusPut(Failed, ConnectTimeout(target))
            && t.step == Stopped(Exited(1))
    decreases if countdown > 0 then countdown else 0
  {
    var t := PollDevice(log, target, user, passwd, countdown, poll, msg, probe, i);
    var a := StatusPut(AwaitOnline, AwaitMessage(msg, countdown));
    var tried := log + [a, Probe(user, passwd, poll)];
    Push2(IsProbe, log, a, Probe(user, passwd, poll));
    DeviceAttemptsStep(countdown, poll);
    if countdown - poll <= 0 {
      assert t.events == tried + [StatusPut(Failed, ConnectTimeout(target))];
      Push(IsProbe, tried, StatusPut(Failed, ConnectTimeout(target)));
    } else {
      var slept := tried + [Sleep(poll)];
      assert t == PollDevice(slept, target, user, passwd, countdown - poll, poll, msg, probe, i + 1);
      Push(IsProbe, tried, Sleep(poll));
      PersistentRefusal(slept, target, user, passwd, countdown - poll, poll, msg, probe, i + 1);
    }
  }

  /** After k refused attempts (k below the attempt bound), the next attempt decides
      wait_for_device at once, whatever countdown remains: an authentication error fails the
      run as unauthorized, a device that answers has its facts posted as the last event and is
      returned, anything else escapes. Exactly k + 1 attempts are made. */
  lemma {:induction false} RefusedThen(log: seq<Event>, target: string, user: string, passwd: string,
                                       countdown: int, poll: int, msg: Option<string>,
                                       probe: nat -> DeviceProbe, i: nat, k: nat)
    requires poll > 0
    requires k < DeviceAttempts(countdown, poll)
    requires forall j: nat :: i <= j < i + k ==> probe(j) == NoValidConnections
    requires !probe(i + k).NoValidConnections?
    ensures var t := PollDevice(log, target, user, passwd, countdown, poll, msg, probe, i);
            && Count(IsProbe, t.events) == Count(IsProbe, log) + k + 1
            && (probe(i + k).AuthenticationRejected? ==>
                  t.events[|t.events| - 1] == StatusPut(Failed, Unauthorized) && t.step == Stopped(Exited(1)))
            && (probe(i + k).Reached? ==>
                  t.events[|t.events| - 1] == FactsPut(probe(i + k).facts) && t.step == Next(probe(i + k).facts))
            && (probe(i + k).ProbeError? ==> t.step == Stopped(Crashed(ProbeFault(probe(i + k).text))))
    decreases k
  {
    var t := PollDevice(log, target, user, passwd, countdown, poll, msg, probe, i);
    var a := StatusPut(AwaitOnline, AwaitMessage(msg, countdown));
    var tried := log + [a, Probe(user, passwd, poll)];
    Push2(IsProbe, log, a, Probe(user, passwd, poll));
    if k == 0 {
      match probe(i)
      case Reached(f) =>
        assert t.events == tried + [FactsPut(f)];
        Push(IsProbe, tried, FactsPut(f));
      case AuthenticationRejected =>
        assert t.events == tried + [StatusPut(Failed, Unauthorized)];
        Push(IsProbe, tried, StatusPut(Failed, Unauthorized));
      case ProbeError(_) =>
        assert t.events == tried;
    } else {
      assert probe(i) == NoValidConnections;
      DeviceAttemptsStep(countdown, poll);
      var slept := tried + [Sleep(poll)];
      assert t == PollDevice(slept, target, user, passwd, countdown - poll, poll, msg, probe, i + 1);
      Push(IsProbe, tried, Sleep(poll));
      RefusedThen(slept, target, user, passwd, countdown - poll, poll, msg, probe, i + 1, k - 1);
    }
  }

  /** Whatever the device does, wait_for_device makes at least one and at most
      DeviceAttempts(countdown, poll) attempts, and only adds to the log. */
  lemma {:induction false} AttemptsBounded(log: seq<Event>, target: string, user: string, passwd: string,
                                           countdown: int, poll: int, msg: Option<string>,
                                           probe: nat -> DeviceProbe, i: nat)
    requires poll > 0
    ensures var t := PollDevice(log, target, user, passwd, countdown, poll, msg, probe, i);
            && log <= t.events
            && Count(IsProbe, log) + 1 <= Count(IsProbe, t.events) <= Count(IsProbe, log) + DeviceAttempts(countdown, poll)
    decreases if countdown > 0 then countdown else 0
  {
    var t := PollDevice(log, target, user, passwd, countdown, poll, msg, probe, i);
    var a := StatusPut(AwaitOnline, AwaitMessage(msg, countdown));
    var tried := log + [a, Probe(user, passwd, poll)];
    Push2(IsProbe, log, a, Probe(user, passwd, poll));
    DeviceAttemptsStep(countdown, poll);
    match probe(i)
    case Reached(f) =>
      assert t.events == tried + [FactsPut(f)];
      Push(IsProbe, tried, FactsPut(f));
    case AuthenticationRejected =>
      assert t.events == tried + [StatusPut(Failed, Unauthorized)];
      Push(IsProbe, tried, StatusPut(Failed, Unauthorized));
    case ProbeError(_) =>
      assert t.events == tried;
    case NoValidConnections =>
      if countdown - poll <= 0 {
        assert t.events == tried + [StatusPut(Failed, ConnectTimeout(target))];
        Push(IsProbe, tried, StatusPut(Failed, ConnectTimeout(target)));
      } else {
        var slept := tried + [Sleep(poll)];
        assert t == PollDevice(slept, target, user, passwd, countdown - poll, poll, msg, probe, i + 1);
        Push(IsProbe, tried, Sleep(poll));
        AttemptsBounded(slept, target, user, passwd, countdown - poll, poll, msg, probe, i + 1);
      }
  }

  /** Every attempt of wait_for_device follows exactly one AWAIT-ONLINE post, and it sleeps
      exactly once between consecutive attempts, never after the last. */
  lemma {:induction false} OnePostAndSleepPerRetry(log: seq<Event>, target: string, user: string, passwd: string,
                                                   countdown: int, poll: int, msg: Option<string>,
                                                   probe: nat -> DeviceProbe, i: nat)
    requires poll > 0
    ensures var t := PollDevice(log, target, user, passwd, countdown, poll, msg, probe, i);
            var n := Count(IsProbe, t.events) - Count(IsProbe, log);
            && Count(IsAwait, t.events) == Count(IsAwait, log) + n
            && Count(IsSleep, t.events) == Count(IsSleep, log) + n - 1
    decreases if countdown > 0 then countdown else 0
  {
    var t := PollDevice(log, target, user, passwd, countdown, poll, msg, probe, i);
    var a := StatusPut(AwaitOnline, AwaitMessage(msg, countdown));
    var pr := Probe(user, passwd, poll);
    var tried := log + [a, pr];
    Push2(IsProbe, log, a, pr);
    Push2(IsAwait, log, a, pr);
    Push2(IsSleep, log, a, pr);
    match probe(i)
    case Reached(f) =>
      assert t.events == tried + [FactsPut(f)];
      Push(IsProbe, tried, FactsPut(f));
      Push(IsAwait, tried, FactsPut(f));
      Push(IsSleep, tried, FactsPut(f));
    case AuthenticationRejected =>
      var e := StatusPut(Failed, Unauthorized);
      assert t.events == tried + [e];
      Push(IsProbe, tried, e);
      Push(IsAwait, tried, e);
      Push(IsSleep, tried, e);
    case ProbeError(_) =>
      assert t.events == tried;
    case NoValidConnections =>
      if countdown - poll <= 0 {
        var e := StatusPut(Failed, ConnectTimeout(target));
        assert t.events == tried + [e];
        Push(IsProbe, tried, e);
        Push(IsAwait, tried, e);
        Push(IsSleep, tried, e);
      } else {
        var slept := tried + [Sleep(poll)];
        assert t == PollDevice(slept, target, user, passwd, countdown - poll, poll, msg, probe, i + 1);
        Push(IsProbe, tried, Sleep(poll));
        Push(IsAwait, tried, Sleep(poll));
        Push(IsSleep, tried, Sleep(poll));
        OnePostAndSleepPerRetry(slept, target, user, passwd, countdown - poll, poll, msg, probe, i + 1);
      }
  }

  /** wait_for_device posts the facts exactly when it returns a device: once, as its last
      event, for the device it returns. */
  lemma {:induction false} FactsPostedOnSuccess(log: seq<Event>, target: string, user: string, passwd: string,
                                                countdown: int, poll: int, msg: Option<string>,
                                                probe: nat -> DeviceProbe, i: nat)
    requires poll > 0
    ensures var t := PollDevice(log, target, user, passwd, countdown, poll, msg, probe, i);
            && Count(IsFacts, t.events) == Count(IsFacts, log) + (if t.step.Next? then 1 else 0)
            && (t.step.Next? ==> t.events[|t.events| - 1] == FactsPut(t.step.value))
    decreases if countdown > 0 then countdown else 0
  {
    var t := PollDevice(log, target, user, passwd, countdown, poll, msg, probe, i);
    var a := StatusPut(AwaitOnline, AwaitMessage(msg, countdown));
    var tried := log + [a, Probe(user, passwd, poll)];
    Push2(IsFacts, log, a, Probe(user, passwd, poll));
    match probe(i)
    case Reached(f) =>
      assert t.events == tried + [FactsPut(f)];
      Push(IsFacts, tried, FactsPut(f));
    case AuthenticationRejected =>
      assert t.events == tried + [StatusPut(Failed, Unauthorized)];
      Push(IsFacts, tried, StatusPut(Failed, Unauthorized));
    case ProbeError(_) =>
      assert t.events == tried;
    case NoValidConnections =>
      if countdown - poll <= 0 {
        assert t.events == tried + [StatusPut(Failed, ConnectTimeout(target))];
        Push(IsFacts, tried, StatusPut(Failed, ConnectTimeout(target)));
      } else {
        var slept := tried + [Sleep(poll)];
        assert t == PollDevice(slept, target, user, passwd, countdown - poll, poll, msg, probe, i + 1);
        Push(IsFacts, tried, Sleep(poll));
        FactsPostedOnSuccess(slept, target, user, passwd, countdown - poll, poll, msg, probe, i + 1);
      }
  }

  /** When the caller passes a message, every AWAIT-ONLINE post of wait_for_device carries
      it, in place of the countdown message. */
  lemma {:induction false} CallerMessageKept(log: seq<Event>, target: string, user: string, passwd: string,
                                             countdown: int, poll: int, msg: Option<string>,
                                             probe: nat -> DeviceProbe, i: nat)
    requires poll > 0
    requires Present(msg)
    ensures var t := PollDevice(log, target, user, passwd, countdown, poll, msg, probe, i);
            && log <= t.events
            && forall k :: |log| <= k < |t.events| && IsAwait(t.events[k]) ==> t.events[k].message == Caller(msg.value)
    decreases if countdown > 0 then countdown else 0
  {
    var t := PollDevice(log, target, user, passwd, countdown, poll, msg, probe, i);
    var tried := log + [StatusPut(AwaitOnline, Caller(msg.value)), Probe(user, passwd, poll)];
    if probe(i).NoValidConnections? && countdown - poll > 0 {
      var slept := tried + [Sleep(poll)];
      CallerMessageKept(slept, target, user, passwd, countdown - poll, poll, msg, probe, i + 1);
      assert t.events[..|slept|] == slept;
    }
  }

  /** The messages of the AWAIT-ONLINE posts of a log, in order. */
  function AwaitMessages(s: seq<Event>): seq<Message> {
    if s == [] then []
    else AwaitMessages(s[..|s| - 1]) + (if IsAwait(s[|s| - 1]) then [s[|s| - 1].message] else [])
  }

  lemma AwaitsPush(log: seq<Event>, e: Event)
    ensures AwaitMessages(log + [e]) == AwaitMessages(log) + (if IsAwait(e) then [e.message] else [])
  {
    assert (log + [e])[..|log|] == log;
  }

  lemma AwaitsPush2(log: seq<Event>, a: Event, b: Event)
    ensures AwaitMessages(log + [a, b])
            == AwaitMessages(log) + (if IsAwait(a) then [a.message] else []) + (if IsAwait(b) then [b.message] else [])
  {
    AwaitsPush(log, a);
    AwaitsPush(log + [a], b);
    assert log + [a, b] == log + [a] + [b];
  }

  /** The messages of n successive attempts of a poll whose first attempt sees `countdown`,
      each attempt seeing one poll delay less. */
  function Countdowns(msg: Option<string>, countdown: int, poll: int, n: nat): seq<Message>
    decreases n
  {
    if n == 0 then [] else [AwaitMessage(msg, countdown)] + Countdowns(msg, countdown - poll, poll, n - 1)
  }

  /** In closed form: the k-th message sees the countdown less k poll delays. */
  lemma {:induction false} CountdownsAt(msg: Option<string>, countdown: int, poll: int, n: nat)
    ensures |Countdowns(msg, countdown, poll, n)| == n
    ensures forall k :: 0 <= k < n ==> Countdowns(msg, countdown, poll, n)[k] == AwaitMessage(msg, countdown - k * poll)
    decreases n
  {
    if n > 0 {
      CountdownsAt(msg, countdown - poll, poll, n - 1);
      forall k | 1 <= k < n
        ensures Countdowns(msg, countdown, poll, n)[k] == AwaitMessage(msg, countdown - k * poll)
      {
        assert countdown - poll - (k - 1) * poll == countdown - k * poll;
      }
    }
  }

  /** The log before a retry: one more attempt (counted by `p`), and its AWAIT-ONLINE message. */
  lemma RetryPrefix(p: Event -> bool, log: seq<Event>, a: Event, attempt: Event, poll: int)
    requires IsAwait(a) && !p(a) && p(attempt) && !IsAwait(attempt) && !p(Sleep(poll))
    ensures Count(p, log + [a, attempt] + [Sleep(poll)]) == Count(p, log) + 1
    ensures AwaitMessages(log + [a, attempt] + [Sleep(poll)]) == AwaitMessages(log) + [a.message]
  {
    Push2(p, log, a, attempt);
    Push(p, log + [a, attempt], Sleep(poll));
    AwaitsPush2(log, a, attempt);
    AwaitsPush(log + [a, attempt], Sleep(poll));
  }

  /** A retried attempt puts its message in front of those of the rest of the poll. */
  lemma AwaitsRetry(log: seq<Event>, retried: seq<Event>, events: seq<Event>, msg: Option<string>, countdown: int, poll: int)
    requires Count(IsProbe, retried) == Count(IsProbe, log) + 1
    requires AwaitMessages(retried) == AwaitMessages(log) + [AwaitMessage(msg, countdown)]
    requires var n := Count(IsProbe, events) - Count(IsProbe, retried);
             n >= 1 && AwaitMessages(events) == AwaitMessages(retried) + Countdowns(msg, countdown - poll, poll, n)
    ensures var n := Count(IsProbe, events) - Count(IsProbe, log);
            n >= 1 && AwaitMessages(events) == AwaitMessages(log) + Countdowns(msg, countdown, poll, n)
  {
    var later := Count(IsProbe, events) - Count(IsProbe, retried);
    assert AwaitMessages(events)
           == AwaitMessages(log) + ([AwaitMessage(msg, countdown)] + Countdowns(msg, countdown - poll, poll, later));
  }

  /** A refused attempt with countdown left: the poll goes on after the post, the attempt and
      a sleep. */
  lemma DeviceRetried(log: seq<Event>, target: string, user: string, passwd: string,
                      countdown: int, poll: int, msg: Option<string>, probe: nat -> DeviceProbe, i: nat)
    requires poll > 0 && probe(i).NoValidConnections? && countdown - poll > 0
    ensures PollDevice(log, target, user, passwd, countdown, poll, msg, probe, i)
            == PollDevice(log + [StatusPut(AwaitOnline, AwaitMessage(msg, countdown)), Probe(user, passwd, poll)] + [Sleep(poll)],
                          target, user, passwd, countdown - poll, poll, msg, probe, i + 1)
  {
  }

  /** The k-th AWAIT-ONLINE post of wait_for_device (counting from 0) carries the caller's
      message when there is one, and otherwise "Timeout remaining" with the countdown less k
      poll delays; there is one post per attempt. */
  lemma {:induction false} AwaitCountdowns(log: seq<Event>, target: string, user: string, passwd: string,
                                           countdown: int, poll: int, msg: Option<string>,
                                           probe: nat -> DeviceProbe, i: nat)
    requires poll > 0
    ensures Count(IsProbe, PollDevice(log, target, user, passwd, countdown, poll, msg, probe, i).events) >= Count(IsProbe, log) + 1
    ensures AwaitMessages(PollDevice(log, target, user, passwd, countdown, poll, msg, probe, i).events)
            == AwaitMessages(log)
               + Countdowns(msg, countdown, poll,
                            Count(IsProbe, PollDevice(log, target, user, passwd, countdown, poll, msg, probe, i).events) - Count(IsProbe, log))
    decreases if countdown > 0 then countdown else 0
  {
    if probe(i).NoValidConnections? && countdown - poll > 0 {
      var a := StatusPut(AwaitOnline, AwaitMessage(msg, countdown));
      var pr := Probe(user, passwd, poll);
      var slept := log + [a, pr] + [Sleep(poll)];
      DeviceRetried(log, target, user, passwd, countdown, poll, msg, probe, i);
      RetryPrefix(IsProbe, log, a, pr, poll);
      AwaitCountdowns(slept, target, user, passwd, countdown - poll, poll, msg, probe, i + 1);
      AwaitsRetry(log, slept, PollDevice(slept, target, user, passwd, countdown - poll, poll, msg, probe, i + 1).events,
                  msg, countdown, poll);
    } else {
      AwaitCountdownsLast(log, target, user, passwd, countdown, poll, msg, probe, i);
    }
  }

  /** An attempt that is not retried is the poll's only one. */
  lemma AwaitCountdownsLast(log: seq<Event>, target: string, user: string, passwd: string,
                            countdown: int, poll: int, msg: Option<string>, probe: nat -> DeviceProbe, i: nat)
    requires poll > 0
    requires !(probe(i).NoValidConnections? && countdown - poll > 0)
    ensures var t := PollDevice(log, target, user, passwd, countdown, poll, msg, probe, i);
            && Count(IsProbe, t.events) == Count(IsProbe, log) + 1
            && AwaitMessages(t.events) == AwaitMessages(log) + Countdowns(msg, countdown, poll, 1)
  {
    var t := PollDevice(log, target, user, passwd, countdown, poll, msg, probe, i);
    var a := StatusPut(AwaitOnline, AwaitMessage(msg, countdown));
    var pr := Probe(user, passwd, poll);
    var tried := log + [a, pr];
    Push2(IsProbe, log, a, pr);
    AwaitsPush2(log, a, pr);
    assert Countdowns(msg, countdown, poll, 1) == [AwaitMessage(msg, countdown)];
    if probe(i).ProbeError? {
      assert t.events == tried;
    } else {
      var e := t.events[|t.events| - 1];
      assert t.events == tried + [e] && !IsAwait(e) && !IsProbe(e);
      Push(IsProbe, tried, e);
      AwaitsPush(tried, e);
    }
  }

  /** The credentials are checked before anything else: without a user name (from --user or
      the user variable) or without a password the run fails at once, with no AWAIT-ONLINE
      post; a connection is attempted exactly when both are present. */
  lemma CredentialsCheckedFirst(log: seq<Event>, a: CliArgs, env: map<string, string>, countdown: int, poll: int,
                                msg: Option<string>, probe: nat -> DeviceProbe)
    requires poll > 0
    ensures var t := WaitForDeviceTrace(log, a, env, countdown, poll, msg, probe);
            && (!Present(LoginUser(a, env)) ==> t == Trace(log + [StatusPut(Failed, UserMissing)], Stopped(Exited(1))))
            && (Present(LoginUser(a, env)) && !Present(LoginPasswd(a, env)) ==>
                  t == Trace(log + [StatusPut(Failed, PasswdMissing)], Stopped(Exited(1))))
            && (Count(IsProbe, t.events) > Count(IsProbe, log) <==> Present(LoginUser(a, env)) && Present(LoginPasswd(a, env)))
  {
    var user, passwd := LoginUser(a, env), LoginPasswd(a, env);
    if !Present(user) {
      Push(IsProbe, log, StatusPut(Failed, UserMissing));
    } else if !Present(passwd) {
      Push(IsProbe, log, StatusPut(Failed, PasswdMissing));
    } else {
      AttemptsBounded(log, a.target, user.value, passwd.value, countdown, poll, msg, probe, 0);
    }
  }

  // ----- wait_for_onie_rescue -----

  /** The number of rescue-shell logins wait_for_onie_rescue makes when every one is refused,
      in closed form: none for a negative countdown, else one more than the number of whole
      poll delays in the countdown. */
  function RescueAttempts(countdown: int, poll: int): nat
    requires poll > 0
  {
    if countdown < 0 then 0 else countdown / poll + 1
  }

  lemma RescueAttemptsStep(countdown: int, poll: int)
    requires poll > 0 && countdown >= 0
    ensures RescueAttempts(countdown, poll) == 1 + RescueAttempts(countdown - poll, poll)
  {
    if countdown - poll >= 0 {
      var x := countdown - poll;
      var q, r := x / poll, x % poll;
      assert x == q * poll + r;
      DivUnique(countdown, poll, q + 1, r);
    } else {
      DivUnique(countdown, poll, 0, countdown);
    }
  }

  /** A rescue shell that keeps refusing the connection (or closing it): wait_for_onie_rescue
      makes exactly RescueAttempts(countdown, poll) logins and fails with the not-reachable
      message. */
  lemma {:induction false} RescuePersistentRefusal(log: seq<Event>, target: string, countdown: int, poll: int,
                                                   user: string, login: nat -> RescueAttempt, i: nat)
    requires poll > 0
    requires forall j: nat :: i <= j ==> Retryable(login(j))
    ensures var t := PollRescue(log, target, countdown, poll, user, login, i);
            && Count(IsLogin, t.events) == Count(IsLogin, log) + RescueAttempts(countdown, poll)
            && t.events[|t.events| - 1] == StatusPut(Failed, RescueTimeout(target))
            && t.step == Stopped(Exited(1))
    decreases if countdown >= 0 then countdown + 1 else 0
  {
    var t := PollRescue(log, target, countdown, poll, user, login, i);
    if countdown < 0 {
      assert t.events == log + [StatusPut(Failed, RescueTimeout(target))];
      Push(IsLogin, log, StatusPut(Failed, RescueTimeout(target)));
    } else {
      var a := StatusPut(AwaitOnline, RescueAwaiting(countdown));
      var tried := log + [a, ShellLogin(user)];
      var slept := tried + [Sleep(poll)];
      assert Retryable(login(i));
      assert t == PollRescue(slept, target, countdown - poll, poll, user, login, i + 1);
      Push2(IsLogin, log, a, ShellLogin(user));
      Push(IsLogin, tried, Sleep(poll));
      RescueAttemptsStep(countdown, poll);
      RescuePersistentRefusal(slept, target, countdown - poll, poll, user, login, i + 1);
    }
  }

  /** After k retried logins (k below the attempt bound), the next login decides
      wait_for_onie_rescue at once: the rescue prompt ends the wait, and any other error fails
      the run naming it, without a retry. Exactly k + 1 logins are made. */
  lemma {:induction false} RescueDecidedAt(log: seq<Event>, target: string, countdown: int, poll: int,
                                           user: string, login: nat -> RescueAttempt, i: nat, k: nat)
    requires poll > 0
    requires k < RescueAttempts(countdown, poll)
    requires forall j: nat :: i <= j < i + k ==> Retryable(login(j))
    requires !Retryable(login(i + k))
    ensures var t := PollRescue(log, target, countdown, poll, user, login, i);
            && Count(IsLogin, t.events) == Count(IsLogin, log) + k + 1
            && (login(i + k).RescuePrompt? ==> t.step == Next(()) && t.events[|t.events| - 1] == ShellLogin(user))
            && (login(i + k).ShellError? ==>
                  t.events[|t.events| - 1] == StatusPut(Failed, RescueError(target, login(i + k).text))
                  && t.step == Stopped(Exited(1)))
    decreases k
  {
    var t := PollRescue(log, target, countdown, poll, user, login, i);
    var a := StatusPut(AwaitOnline, RescueAwaiting(countdown));
    var tried := log + [a, ShellLogin(user)];
    Push2(IsLogin, log, a, ShellLogin(user));
    if k == 0 {
      if login(i).ShellError? {
        var e := StatusPut(Failed, RescueError(target, login(i).text));
        assert t.events == tried + [e];
        Push(IsLogin, tried, e);
      } else {
        assert t.events == tried;
      }
    } else {
      assert Retryable(login(i));
      RescueAttemptsStep(countdown, poll);
      var slept := tried + [Sleep(poll)];
      assert t == PollRescue(slept, target, countdown - poll, poll, user, login, i + 1);
      Push(IsLogin, tried, Sleep(poll));
      RescueDecidedAt(slept, target, countdown - poll, poll, user, login, i + 1, k - 1);
    }
  }

  /** Every login attempt of wait_for_onie_rescue follows exactly one AWAIT-ONLINE post. */
  lemma {:induction false} RescueOnePostPerLogin(log: seq<Event>, target: string, countdown: int, poll: int,
                                                 user: string, login: nat -> RescueAttempt, i: nat)
    requires poll > 0
    ensures var t := PollRescue(log, target, countdown, poll, user, login, i);
            Count(IsAwait, t.events) - Count(IsAwait, log) == Count(IsLogin, t.events) - Count(IsLogin, log)
    decreases if countdown >= 0 then countdown + 1 else 0
  {
    var t := PollRescue(log, target, countdown, poll, user, login, i);
    if countdown < 0 {
      var e := StatusPut(Failed, RescueTimeout(target));
      assert t.events == log + [e];
      Push(IsLogin, log, e);
      Push(IsAwait, log, e);
    } else {
      var a := StatusPut(AwaitOnline, RescueAwaiting(countdown));
      var tried := log + [a, ShellLogin(user)];
      Push2(IsLogin, log, a, ShellLogin(user));
      Push2(IsAwait, log, a, ShellLogin(user));
      var attempt := login(i);
      if attempt.RescuePrompt? {
        assert t.events == tried;
      } else if Retryable(attempt) {
        var slept := tried + [Sleep(poll)];
        assert t == PollRescue(slept, target, countdown - poll, poll, user, login, i + 1);
        Push(IsLogin, tried, Sleep(poll));
        Push(IsAwait, tried, Sleep(poll));
        RescueOnePostPerLogin(slept, target, countdown - poll, poll, user, login, i + 1);
      } else {
        var e := StatusPut(Failed, RescueError(target, attempt.text));
        assert t.events == tried + [e];
        Push(IsLogin, tried, e);
        Push(IsAwait, tried, e);
      }
    }
  }

  /** The messages of n successive rescue logins, the first with `countdown` left. */
  function RescueCountdowns(countdown: int, poll: int, n: nat): seq<Message>
    decreases n
  {
    if n == 0 then [] else [RescueAwaiting(countdown)] + RescueCountdowns(countdown - poll, poll, n - 1)
  }

  /** In closed form: the k-th message sees the countdown less k poll delays. */
  lemma {:induction false} RescueCountdownsAt(countdown: int, poll: int, n: nat)
    ensures |RescueCountdowns(countdown, poll, n)| == n
    ensures forall k :: 0 <= k < n ==> RescueCountdowns(countdown, poll, n)[k] == RescueAwaiting(countdown - k * poll)
    decreases n
  {
    if n > 0 {
      RescueCountdownsAt(countdown - poll, poll, n - 1);
      forall k | 1 <= k < n
        ensures RescueCountdowns(countdown, poll, n)[k] == RescueAwaiting(countdown - k * poll)
      {
        assert countdown - poll - (k - 1) * poll == countdown - k * poll;
      }
    }
  }

  lemma RescueAwaitsRetry(log: seq<Event>, retried: seq<Event>, events: seq<Event>, countdown: int, poll: int)
    requires Count(IsLogin, retried) == Count(IsLogin, log) + 1
    requires AwaitMessages(retried) == AwaitMessages(log) + [RescueAwaiting(countdown)]
    requires var n := Count(IsLogin, events) - Count(IsLogin, retried);
             n >= 0 && AwaitMessages(events) == AwaitMessages(retried) + RescueCountdowns(countdown - poll, poll, n)
    ensures var n := Count(IsLogin, events) - Count(IsLogin, log);
            n >= 0 && AwaitMessages(events) == AwaitMessages(log) + RescueCountdowns(countdown, poll, n)
  {
    var later := Count(IsLogin, events) - Count(IsLogin, retried);
    assert AwaitMessages(events)
           == AwaitMessages(log) + ([RescueAwaiting(countdown)] + RescueCountdowns(countdown - poll, poll, later));
  }

  /** A retried login: the wait goes on after the post, the login and a sleep. */
  lemma RescueRetried(log: seq<Event>, target: string, countdown: int, poll: int,
                      user: string, login: nat -> RescueAttempt, i: nat)
    requires poll > 0 && countdown >= 0 && Retryable(login(i))
    ensures PollRescue(log, target, countdown, poll, user, login, i)
            == PollRescue(log + [StatusPut(AwaitOnline, RescueAwaiting(countdown)), ShellLogin(user)] + [Sleep(poll)],
                          target, countdown - poll, poll, user, login, i + 1)
  {
  }

  /** The k-th AWAIT-ONLINE post of wait_for_onie_rescue (counting from 0) says "Timeout
      remaining" with the countdown less k poll delays; there is one post per login. */
  lemma {:induction false} RescueAwaitCountdowns(log: seq<Event>, target: string, countdown: int, poll: int,
                                                 user: string, login: nat -> RescueAttempt, i: nat)
    requires poll > 0
    ensures Count(IsLogin, PollRescue(log, target, countdown, poll, user, login, i).events) >= Count(IsLogin, log)
    ensures AwaitMessages(PollRescue(log, target, countdown, poll, user, login, i).events)
            == AwaitMessages(log) + RescueCountdowns(countdown, poll, Count(IsLogin, PollRescue(log, target, countdown, poll, user, login, i).events) - Count(IsLogin, log))
    decreases if countdown >= 0 then countdown + 1 else 0
  {
    if countdown >= 0 && Retryable(login(i)) {
      var a := StatusPut(AwaitOnline, RescueAwaiting(countdown));
      var slept := log + [a, ShellLogin(user)] + [Sleep(poll)];
      RescueRetried(log, target, countdown, poll, user, login, i);
      RetryPrefix(IsLogin, log, a, ShellLogin(user), poll);
      RescueAwaitCountdowns(slept, target, countdown - poll, poll, user, login, i + 1);
      RescueAwaitsRetry(log, slept, PollRescue(slept, target, countdown - poll, poll, user, login, i + 1).events, countdown, poll);
    } else {
      RescueAwaitCountdownsLast(log, target, countdown, poll, user, login, i);
    }
  }

  /** A rescue wait that gives up at once, or whose login is not retried. */
  lemma RescueAwaitCountdownsLast(log: seq<Event>, target: string, countdown: int, poll: int,
                                  user: string, login: nat -> RescueAttempt, i: nat)
    requires poll > 0
    requires !(countdown >= 0 && Retryable(login(i)))
    ensures var t := PollRescue(log, target, countdown, poll, user, login, i);
            var n := Count(IsLogin, t.events) - Count(IsLogin, log);
            && n == (if countdown < 0 then 0 else 1)
            && AwaitMessages(t.events) == AwaitMessages(log) + RescueCountdowns(countdown, poll, n)
  {
    var t := PollRescue(log, target, countdown, poll, user, login, i);
    if countdown < 0 {
      var e := StatusPut(Failed, RescueTimeout(target));
      assert t.events == log + [e];
      Push(IsLogin, log, e);
      AwaitsPush(log, e);
    } else {
      var a := StatusPut(AwaitOnline, RescueAwaiting(countdown));
      var tried := log + [a, ShellLogin(user)];
      Push2(IsLogin, log, a, ShellLogin(user));
      AwaitsPush2(log, a, ShellLogin(user));
      assert RescueCountdowns(countdown, poll, 1) == [RescueAwaiting(countdown)];
      if login(i).RescuePrompt? {
        assert t.events == tried;
      } else {
        var e := StatusPut(Failed, RescueError(target, login(i).text));
        assert t.events == tried + [e];
        Push(IsLogin, tried, e);
        AwaitsPush(tried, e);
      }
    }
  }

  /** wait_for_onie_rescue makes at most RescueAttempts(countdown, poll) logins, at least one
      when it reaches the shell, and only adds to the log. */
  lemma {:induction false} RescueLoginsBounded(log: seq<Event>, target: string, countdown: int, poll: int,
                                               user: string, login: nat -> RescueAttempt, i: nat)
    requires poll > 0
    ensures var t := PollRescue(log, target, countdown, poll, user, login, i);
            var n := Count(IsLogin, t.events) - Count(IsLogin, log);
            && log <= t.events
            && 0 <= n <= RescueAttempts(countdown, poll)
            && (t.step.Next? ==> n >= 1)
    decreases if countdown >= 0 then countdown + 1 else 0
  {
    var t := PollRescue(log, target, countdown, poll, user, login, i);
    if countdown < 0 {
      var e := StatusPut(Failed, RescueTimeout(target));
      assert t.events == log + [e];
      Push(IsLogin, log, e);
    } else {
      var a := StatusPut(AwaitOnline, RescueAwaiting(countdown));
      var tried := log + [a, ShellLogin(user)];
      Push2(IsLogin, log, a, ShellLogin(user));
      RescueAttemptsStep(countdown, poll);
      var attempt := login(i);
      if attempt.RescuePrompt? {
        assert t.events == tried;
      } else if Retryable(attempt) {
        var slept := tried + [Sleep(poll)];
        assert t == PollRescue(slept, target, countdown - poll, poll, user, login, i + 1);
        Push(IsLogin, tried, Sleep(poll));
        RescueLoginsBounded(slept, target, countdown - poll, poll, user, login, i + 1);
      } else {
        var e := StatusPut(Failed, RescueError(target, attempt.text));
        assert t.events == tried + [e];
        Push(IsLogin, tried, e);
      }
    }
  }

  // ----- milestones: the log without the waiting -----

  /** Everything but the AWAIT-ONLINE posts, connection attempts, rescue-shell logins and
      sleeps of the waits: the selector run, the commands, the lines sent to and markers
      expected from the rescue shell, the facts and the other status posts. */
  predicate IsMilestone(e: Event) {
    !IsAwait(e) && !e.Probe? && !e.ShellLogin? && !e.Sleep?
  }

  function Milestones(s: seq<Event>): seq<Event> {
    if s == [] then [] else (if IsMilestone(s[0]) then [s[0]] else []) + Milestones(s[1..])
  }

  lemma {:induction false} MilestonesAppend(s: seq<Event>, t: seq<Event>)
    ensures Milestones(s + t) == Milestones(s) + Milestones(t)
  {
    if s == [] {
      assert s + t == t;
    } else {
      assert (s + t)[1..] == s[1..] + t;
      MilestonesAppend(s[1..], t);
    }
  }

  function Keep(e: Event): seq<Event> {
    if IsMilestone(e) then [e] else []
  }

  lemma MilestonesPush(log: seq<Event>, e: Event)
    ensures Milestones(log + [e]) == Milestones(log) + Keep(e)
  {
    MilestonesAppend(log, [e]);
    assert [e][1..] == [];
  }

  lemma MilestonesPush2(log: seq<Event>, a: Event, b: Event)
    ensures Milestones(log + [a, b]) == Milestones(log) + Keep(a) + Keep(b)
  {
    MilestonesPush(log, a);
    MilestonesPush(log + [a], b);
    assert log + [a, b] == log + [a] + [b];
  }

  lemma MilestonesPush3(log: seq<Event>, a: Event, b: Event, c: Event)
    ensures Milestones(log + [a, b, c]) == Milestones(log) + Keep(a) + Keep(b) + Keep(c)
  {
    MilestonesPush2(log, a, b);
    MilestonesPush(log + [a, b], c);
    assert log + [a, b, c] == log + [a, b] + [c];
  }

  /** Waiting events leave the milestones unchanged. */
  lemma MilestonesSkip(log: seq<Event>, e: Event)
    requires !IsMilestone(e)
    ensures Milestones(log + [e]) == Milestones(log)
  {
    MilestonesPush(log, e);
  }

  lemma MilestonesSkip2(log: seq<Event>, a: Event, b: Event)
    requires !IsMilestone(a) && !IsMilestone(b)
    ensures Milestones(log + [a, b]) == Milestones(log)
  {
    MilestonesPush2(log, a, b);
  }

  /** A milestone is appended to the milestones. */
  lemma MilestonesAdd(log: seq<Event>, e: Event)
    requires IsMilestone(e)
    ensures Milestones(log + [e]) == Milestones(log) + [e]
  {
    MilestonesPush(log, e);
  }

  /** The only milestone wait_for_device adds is its last event: the facts when it returns
      the device, the FAILED post when it gives up; an escaping exception adds none. */
  lemma {:induction false} DeviceWaitMilestones(log: seq<Event>, target: string, user: string, passwd: string,
                                                countdown: int, poll: int, msg: Option<string>,
                                                probe: nat -> DeviceProbe, i: nat)
    requires poll > 0
    ensures var t := PollDevice(log, target, user, passwd, countdown, poll, msg, probe, i);
            && |t.events| > |log|
            && Milestones(t.events) == Milestones(log) + (if t.step.Stopped? && t.step.stop.Crashed? then []
                                                          else [t.events[|t.events| - 1]])
    decreases if countdown > 0 then countdown else 0
  {
    var t := PollDevice(log, target, user, passwd, countdown, poll, msg, probe, i);
    var a := StatusPut(AwaitOnline, AwaitMessage(msg, countdown));
    var tried := log + [a, Probe(user, passwd, poll)];
    MilestonesSkip2(log, a, Probe(user, passwd, poll));
    match probe(i)
    case Reached(f) =>
      assert t.events == tried + [FactsPut(f)];
      MilestonesAdd(tried, FactsPut(f));
    case AuthenticationRejected =>
      assert t.events == tried + [StatusPut(Failed, Unauthorized)];
      MilestonesAdd(tried, StatusPut(Failed, Unauthorized));
    case ProbeError(_) =>
      assert t.events == tried;
    case NoValidConnections =>
      if countdown - poll <= 0 {
        assert t.events == tried + [StatusPut(Failed, ConnectTimeout(target))];
        MilestonesAdd(tried, StatusPut(Failed, ConnectTimeout(target)));
      } else {
        var slept := tried + [Sleep(poll)];
        assert t == PollDevice(slept, target, user, passwd, countdown - poll, poll, msg, probe, i + 1);
        MilestonesSkip(tried, Sleep(poll));
        DeviceWaitMilestones(slept, target, user, passwd, countdown - poll, poll, msg, probe, i + 1);
      }
  }

  /** wait_for_onie_rescue adds no milestone when it reaches the shell, and only its FAILED
      post when it does not. */
  lemma {:induction false} RescueWaitMilestones(log: seq<Event>, target: string, countdown: int, poll: int,
                                                user: string, login: nat -> RescueAttempt, i: nat)
    requires poll > 0
    ensures var t := PollRescue(log, target, countdown, poll, user, login, i);
            && |t.events| > |log|
            && (t.step.Next? ==> Milestones(t.events) == Milestones(log))
            && (t.step.Stopped? ==> Milestones(t.events) == Milestones(log) + [t.events[|t.events| - 1]])
    decreases if countdown >= 0 then countdown + 1 else 0
  {
    var t := PollRescue(log, target, countdown, poll, user, login, i);
    if countdown < 0 {
      assert t.events == log + [StatusPut(Failed, RescueTimeout(target))];
      MilestonesAdd(log, StatusPut(Failed, RescueTimeout(target)));
    } else {
      var a := StatusPut(AwaitOnline, RescueAwaiting(countdown));
      var tried := log + [a, ShellLogin(user)];
      MilestonesSkip2(log, a, ShellLogin(user));
      var attempt := login(i);
      if attempt.RescuePrompt? {
        assert t.events == tried;
      } else if Retryable(attempt) {
        var slept := tried + [Sleep(poll)];
        assert t == PollRescue(slept, target, countdown - poll, poll, user, login, i + 1);
        MilestonesSkip(tried, Sleep(poll));
        RescueWaitMilestones(slept, target, countdown - poll, poll, user, login, i + 1);
      } else {
        var e := StatusPut(Failed, RescueError(target, attempt.text));
        assert t.events == tried + [e];
        MilestonesAdd(tried, e);
      }
    }
  }

  // ----- one terminal report per run -----

  /** A DONE or FAILED post: what exit_results writes. */
  predicate IsTerminal(e: Event) { e.StatusPut? && (e.state == Done || e.state == Failed) }

  lemma {:induction false} CountNone(p: Event -> bool, s: seq<Event>)
    requires forall k :: 0 <= k < |s| ==> !p(s[k])
    ensures Count(p, s) == 0
  {
    if s != [] {
      assert forall k :: 0 <= k < |s[1..]| ==> s[1..][k] == s[k + 1];
      CountNone(p, s[1..]);
    }
  }

  /** Appending events none of which is a terminal post keeps the terminal count. */
  lemma Quiet(log: seq<Event>, s: seq<Event>)
    requires forall k :: 0 <= k < |s| ==> !IsTerminal(s[k])
    ensures Count(IsTerminal, log + s) == Count(IsTerminal, log)
  {
    CountAppend(IsTerminal, log, s);
    CountNone(IsTerminal, s);
  }

  /** A phase run after `log` reports as exit_results promises: it only appends to the log;
      when it exits it has added exactly one DONE or FAILED post, as its last event, with exit
      code zero exactly when that post is DONE; otherwise it has added none. */
  ghost predicate Reports<T>(log: seq<Event>, t: Trace<T>) {
    && log <= t.events
    && if t.step.Stopped? && t.step.stop.Exited? then
         && |t.events| > |log|
         && Count(IsTerminal, t.events) == Count(IsTerminal, log) + 1
         && IsTerminal(t.events[|t.events| - 1])
         && (t.step.stop.code == 0 <==> t.events[|t.events| - 1].state == Done)
       else Count(IsTerminal, t.events) == Count(IsTerminal, log)
  }

  /** A quiet stretch followed by a reporting phase reports. */
  lemma ReportsAfter<T>(log: seq<Event>, mid: seq<Event>, t: Trace<T>)
    requires log <= mid && Count(IsTerminal, mid) == Count(IsTerminal, log)
    requires Reports(mid, t)
    ensures Reports(log, t)
  {
    assert t.events[..|log|] == mid[..|log|];
  }

  /** A phase that stops passes its report on to its caller. */
  lemma ReportsStopped<T, U>(log: seq<Event>, t: Trace<T>)
    requires Reports(log, t) && t.step.Stopped?
    ensures var u: Trace<U> := Trace(t.events, Stopped(t.step.stop)); Reports(log, u)
  {
  }

  lemma ExitReports<T>(log: seq<Event>, r: Results)
    ensures Reports(log, ExitTrace<T>(log, r))
  {
    Push(IsTerminal, log, ExitEvent(r));
  }

  lemma {:induction false} PollDeviceReports(log: seq<Event>, target: string, user: string, passwd: string,
                                             countdown: int, poll: int, msg: Option<string>,
                                             probe: nat -> DeviceProbe, i: nat)
    requires poll > 0
    ensures Reports(log, PollDevice(log, target, user, passwd, countdown, poll, msg, probe, i))
    decreases if countdown > 0 then countdown else 0
  {
    var t := PollDevice(log, target, user, passwd, countdown, poll, msg, probe, i);
    var a := StatusPut(AwaitOnline, AwaitMessage(msg, countdown));
    var tried := log + [a, Probe(user, passwd, poll)];
    Push2(IsTerminal, log, a, Probe(user, passwd, poll));
    match probe(i)
    case Reached(f) =>
      Push(IsTerminal, tried, FactsPut(f));
    case AuthenticationRejected =>
      ExitReports<Facts>(tried, Failure(Login, Unauthorized));
      ReportsAfter(log, tried, t);
    case ProbeError(_) =>
    case NoValidConnections =>
      if countdown - poll <= 0 {
        ExitReports<Facts>(tried, Failure(Login, ConnectTimeout(target)));
        ReportsAfter(log, tried, t);
      } else {
        var slept := tried + [Sleep(poll)];
        Push(IsTerminal, tried, Sleep(poll));
        PollDeviceReports(slept, target, user, passwd, countdown - poll, poll, msg, probe, i + 1);
        ReportsAfter(log, slept, t);
      }
  }

  lemma WaitForDeviceReports(log: seq<Event>, a: CliArgs, env: map<string, string>, countdown: int, poll: int,
                             msg: Option<string>, probe: nat -> DeviceProbe)
    requires poll > 0
    ensures Reports(log, WaitForDeviceTrace(log, a, env, countdown, poll, msg, probe))
  {
    var user, passwd := LoginUser(a, env), LoginPasswd(a, env);
    if !Present(user) {
      ExitReports<Facts>(log, Failure(Login, UserMissing));
    } else if !Present(passwd) {
      ExitReports<Facts>(log, Failure(Login, PasswdMissing));
    } else {
      PollDeviceReports(log, a.target, user.value, passwd.value, countdown, poll, msg, probe, 0);
    }
  }

  lemma {:induction false} PollRescueReports(log: seq<Event>, target: string, countdown: int, poll: int,
                                             user: string, login: nat -> RescueAttempt, i: nat)
    requires poll > 0
    ensures Reports(log, PollRescue(log, target, countdown, poll, user, login, i))
    decreases if countdown >= 0 then countdown + 1 else 0
  {
    var t := PollRescue(log, target, countdown, poll, user, login, i);
    if countdown < 0 {
      ExitReports<()>(log, Failure(Login, RescueTimeout(target)));
    } else {
      var a := StatusPut(AwaitOnline, RescueAwaiting(countdown));
      var tried := log + [a, ShellLogin(user)];
      Push2(IsTerminal, log, a, ShellLogin(user));
      var attempt := login(i);
      if attempt.RescuePrompt? {
      } else if Retryable(attempt) {
        var slept := tried + [Sleep(poll)];
        Push(IsTerminal, tried, Sleep(poll));
        PollRescueReports(slept, target, countdown - poll, poll, user, login, i + 1);
        ReportsAfter(log, slept, t);
      } else {
        ExitReports<()>(tried, Failure(Login, RescueError(target, attempt.text)));
        ReportsAfter(log, tried, t);
      }
    }
  }

  lemma RequiredOsReports(log: seq<Event>, facts: Facts, selector: Facts -> Selection)
    ensures Reports(log, RequiredOsTrace(log, facts, selector))
  {
    var ran := log + [OsSelect(facts)];
    Push(IsTerminal, log, OsSelect(facts));
    if selector(facts).NotJson? {
      ExitReports<SelectorReply>(ran, Failure(Install, SelectorNotJson(selector(facts).stdout)));
      ReportsAfter(log, ran, RequiredOsTrace(log, facts, selector));
    }
  }

  /** onie_install never reports: it succeeds or its failure escapes. */
  lemma OnieInstallReports(log: seq<Event>, server: string, image: string, user: string, s: OnieSession)
    ensures var t := OnieInstallTrace(log, server, image, user, s);
            Reports(log, t) && !(t.step.Stopped? && t.step.stop.Exited?)
  {
    var t := OnieInstallTrace(log, server, image, user, s);
    assert t.events == log + t.events[|log|..];
    Quiet(log, t.events[|log|..]);
  }

  lemma RescueInstallReports(log: seq<Event>, a: CliArgs, env: map<string, string>, image: string, w: World)
    ensures Reports(log, RescueInstallTrace(log, a, env, image, w))
  {
    var t := RescueInstallTrace(log, a, env, image, w);
    var res := w.execute(OnieSelect);
    var selected := log + [Exec(OnieSelect)];
    Push(IsTerminal, log, Exec(OnieSelect));
    if !res.allGood {
      ExitReports<()>(selected, Failure(Install, CommandFailed(OnieSelect.Text(), res.results)));
      ReportsAfter(log, selected, t);
    } else {
      var rebooted := selected + [Exec(Reboot), Sleep(60)];
      Push2(IsTerminal, selected, Exec(Reboot), Sleep(60));
      var rescue := PollRescue(rebooted, a.target, 300, 10, "root", w.rescue, 0);
      PollRescueReports(rebooted, a.target, 300, 10, "root", w.rescue, 0);
      ReportsAfter(log, rebooted, rescue);
      if rescue.step.Stopped? {
        ReportsStopped<(), ()>(log, rescue);
      } else {
        var onie := OnieInstallTrace(rescue.events, a.server, image, "root", w.onie);
        OnieInstallReports(rescue.events, a.server, image, "root", w.onie);
        ReportsAfter(log, rescue.events, onie);
        if onie.step.Stopped? {
          ReportsStopped<bool, ()>(log, onie);
        } else {
          var waited := onie.events + [Sleep(60)];
          Push(IsTerminal, onie.events, Sleep(60));
          var back := WaitForDeviceTrace(waited, a, env, 1800, 30, None, w.installWait);
          WaitForDeviceReports(waited, a, env, 1800, 30, None, w.installWait);
          ReportsAfter(log, waited, back);
        }
      }
    }
  }

  lemma InstallOsReports(log: seq<Event>, a: CliArgs, env: map<string, string>, facts: Facts, image: string, w: World)
    ensures Reports(log, InstallOsTrace(log, a, env, facts, image, w))
  {
    var t := InstallOsTrace(log, a, env, facts, image, w);
    var path := ImagePath(a.topdir, image);
    if path !in w.files {
      ExitReports<()>(log, Failure(Install, ImageMissing(path)));
    } else {
      var posted := log + [StatusPut(OsInstall, Installing(image))];
      Push(IsTerminal, log, StatusPut(OsInstall, Installing(image)));
      if facts.osMajor.Some? && facts.osMajor.value == 2 {
        var cmd := InBandInstall(a.server, image);
        Push(IsTerminal, posted, Exec(cmd));
        if !w.execute(cmd).allGood {
          ExitReports<()>(posted + [Exec(cmd)], Failure(Install, CommandFailed(cmd.Text(), w.execute(cmd).results)));
          ReportsAfter(log, posted + [Exec(cmd)], t);
        }
      } else if facts.osMajor.Some? {
        RescueInstallReports(posted, a, env, image, w);
        ReportsAfter(log, posted, t);
      }
    }
  }

  lemma RebootReports(log: seq<Event>, a: CliArgs, env: map<string, string>, facts: Facts, w: World)
    ensures Reports(log, RebootTrace(log, a, env, facts, w))
  {
    if facts.osMajor.Some? && facts.osMajor.value < 3 {
      var rebooted := log + [StatusPut(OsRebooting, Rebooting), Exec(Reboot)];
      Push2(IsTerminal, log, StatusPut(OsRebooting, Rebooting), Exec(Reboot));
      if a.initDelay < 0 {
        return;
      }
      var rebooting := rebooted + [Sleep(a.initDelay)];
      Push(IsTerminal, rebooted, Sleep(a.initDelay));
      var back := WaitForDeviceTrace(rebooting, a, env, a.reloadDelay, 10, None, w.rebootWait);
      WaitForDeviceReports(rebooting, a, env, a.reloadDelay, 10, None, w.rebootWait);
      ReportsAfter(log, rebooting, back);
    }
  }

  lemma EnsureOsVersionReports(log: seq<Event>, a: CliArgs, env: map<string, string>, facts: Facts, w: World)
    ensures Reports(log, EnsureOsVersionTrace(log, a, env, facts, w))
  {
    var sel := RequiredOsTrace(log, facts, w.selector);
    RequiredOsReports(log, facts, w.selector);
    if sel.step.Stopped? {
      ReportsStopped<SelectorReply, ()>(log, sel);
    } else if sel.step.value.ImageEntry? && Present(sel.step.value.image) {
      var image := sel.step.value.image.value;
      var installed := InstallOsTrace(sel.events, a, env, facts, image, w);
      InstallOsReports(sel.events, a, env, facts, image, w);
      ReportsAfter(log, sel.events, installed);
      if installed.step.Next? {
        RebootReports(installed.events, a, env, facts, w);
        ReportsAfter(log, installed.events, RebootTrace(installed.events, a, env, facts, w));
      }
    }
  }

  /** A bootstrap run always ends the process. When it exits, it has posted exactly one DONE
      or FAILED status, as its very last event, and exits with zero exactly when that status
      is DONE; when an exception escapes, it has posted neither. */
  lemma RunReportsOnce(a: CliArgs, env: map<string, string>, w: World)
    ensures var t := RunTrace([], a, env, w);
            && t.step.Stopped?
            && (t.step.stop.Exited? ==>
                  && Count(IsTerminal, t.events) == 1
                  && IsTerminal(t.events[|t.events| - 1])
                  && (t.step.stop.code == 0 <==> t.events[|t.events| - 1].state == Done))
            && (t.step.stop.Crashed? ==> Count(IsTerminal, t.events) == 0)
  {
    var t := RunTrace([], a, env, w);
    RunReports([], a, env, w);
    assert t.step.Stopped? by { RunStops([], a, env, w); }
  }

  lemma RunStops(log: seq<Event>, a: CliArgs, env: map<string, string>, w: World)
    ensures RunTrace(log, a, env, w).step.Stopped?
  {
  }

  lemma RunReports(log: seq<Event>, a: CliArgs, env: map<string, string>, w: World)
    ensures Reports(log, RunTrace(log, a, env, w))
  {
    var t := RunTrace(log, a, env, w);
    if w.topdirExists && a.initDelay < 0 {
      Push(IsTerminal, log, StatusPut(Start, Started));
    } else if w.topdirExists {
      var started := log + [StatusPut(Start, Started), Sleep(a.initDelay)];
      Push2(IsTerminal, log, StatusPut(Start, Started), Sleep(a.initDelay));
      var first := WaitForDeviceTrace(started, a, env, a.reloadDelay, 10, Some(AccessMessage), w.firstWait);
      WaitForDeviceReports(started, a, env, a.reloadDelay, 10, Some(AccessMessage), w.firstWait);
      ReportsAfter(log, started, first);
      if first.step.Stopped? {
        ReportsStopped<Facts, ()>(log, first);
      } else if first.step.value.virtual {
        ExitReports<()>(first.events, Success);
        ReportsAfter(log, first.events, t);
      } else {
        var ensured := EnsureOsVersionTrace(first.events, a, env, first.step.value, w);
        EnsureOsVersionReports(first.events, a, env, first.step.value, w);
        ReportsAfter(log, first.events, ensured);
        if ensured.step.Next? {
          ExitReports<()>(ensured.events, Success);
          ReportsAfter(log, ensured.events, t);
        }
      }
    }
  }

  // ----- what is done, in which order -----

  /** The milestones of a complete rescue-shell install, in order. */
  function OnieSteps(server: string, image: string): seq<Event> {
    [StatusPut(OnieRescue, Downloading), SendLine(NosInstall(server, image)), Expect(InstallerStarted, 15),
     Expect(ReadyToReboot, 180), SendLine(RebootLine), StatusPut(OsInstall, Verified)]
  }

  /** How many of the OnieSteps a session gets through. */
  function OnieProgress(s: OnieSession): nat {
    if !s.login.RescuePrompt? then 1 else if s.installer != Matched then 3 else if s.ready != Matched then 4 else 6
  }

  /** The reboot line is among the first n OnieSteps exactly when n passes the ready marker. */
  lemma RebootLineAfterMarkers(server: string, image: string, n: nat)
    requires n <= 6
    ensures SendLine(RebootLine) in OnieSteps(server, image)[..n] <==> n > 4
  {
    var steps := OnieSteps(server, image);
    if n > 4 {
      assert steps[..n][4] == SendLine(RebootLine);
    }
  }

  /** onie_install gets as far through OnieSteps as the session allows: it stops after the
      ONIE-RESCUE post when the login fails, after the first expect when the installer marker
      does not come, and after the second when the ready marker does not; so the reboot line
      is sent, and the run goes on, exactly when the prompt and both markers came. Every
      failure escapes without a report. */
  lemma OnieInstallSteps(log: seq<Event>, server: string, image: string, user: string, s: OnieSession)
    ensures var t := OnieInstallTrace(log, server, image, user, s);
            var ok := s.login.RescuePrompt? && s.installer == Matched && s.ready == Matched;
            && Milestones(t.events) == Milestones(log) + OnieSteps(server, image)[..OnieProgress(s)]
            && (SendLine(RebootLine) in OnieSteps(server, image)[..OnieProgress(s)] <==> ok)
            && (t.step.Next? <==> ok)
            && (t.step.Stopped? ==> t.step.stop.Crashed?)
  {
    RebootLineAfterMarkers(server, image, OnieProgress(s));
    var loggedIn := log + [StatusPut(OnieRescue, Downloading), ShellLogin(user)];
    OnieLoggedIn(log, server, image, user);
    if s.login.RescuePrompt? {
      var started := loggedIn + [SendLine(NosInstall(server, image)), Expect(InstallerStarted, 15)];
      OnieStarted(log, loggedIn, server, image);
      if s.installer == Matched {
        var verified := started + [Expect(ReadyToReboot, 180)];
        OnieVerified(log, started, server, image);
        if s.ready == Matched {
          OnieRebooted(log, verified, server, image);
        }
      }
    }
  }

  lemma OnieLoggedIn(log: seq<Event>, server: string, image: string, user: string)
    ensures Milestones(log + [StatusPut(OnieRescue, Downloading), ShellLogin(user)])
            == Milestones(log) + OnieSteps(server, image)[..1]
  {
    MilestonesPush2(log, StatusPut(OnieRescue, Downloading), ShellLogin(user));
  }

  lemma OnieStarted(log: seq<Event>, loggedIn: seq<Event>, server: string, image: string)
    requires Milestones(loggedIn) == Milestones(log) + OnieSteps(server, image)[..1]
    ensures Milestones(loggedIn + [SendLine(NosInstall(server, image)), Expect(InstallerStarted, 15)])
            == Milestones(log) + OnieSteps(server, image)[..3]
  {
    var steps := OnieSteps(server, image);
    MilestonesPush2(loggedIn, SendLine(NosInstall(server, image)), Expect(InstallerStarted, 15));
    assert steps[..3] == steps[..1] + [steps[1]] + [steps[2]];
  }

  lemma OnieVerified(log: seq<Event>, started: seq<Event>, server: string, image: string)
    requires Milestones(started) == Milestones(log) + OnieSteps(server, image)[..3]
    ensures Milestones(started + [Expect(ReadyToReboot, 180)]) == Milestones(log) + OnieSteps(server, image)[..4]
  {
    var steps := OnieSteps(server, image);
    MilestonesPush(started, Expect(ReadyToReboot, 180));
    assert steps[..4] == steps[..3] + [steps[3]];
  }

  lemma OnieRebooted(log: seq<Event>, verified: seq<Event>, server: string, image: string)
    requires Milestones(verified) == Milestones(log) + OnieSteps(server, image)[..4]
    ensures Milestones(verified + [SendLine(RebootLine), Sleep(2), StatusPut(OsInstall, Verified)])
            == Milestones(log) + OnieSteps(server, image)[..6]
  {
    var steps := OnieSteps(server, image);
    MilestonesPush3(verified, SendLine(RebootLine), Sleep(2), StatusPut(OsInstall, Verified));
    assert steps[..6] == steps[..4] + [steps[4]] + [] + [steps[5]];
  }

  /** install_os checks the local image before anything else: without it the run fails with
      nothing done on the device and no OS-INSTALL post. */
  lemma NoImageFailsFirst(log: seq<Event>, a: CliArgs, env: map<string, string>, facts: Facts, image: string, w: World)
    requires ImagePath(a.topdir, image) !in w.files
    ensures var t := InstallOsTrace(log, a, env, facts, image, w);
            Milestones(t.events) == Milestones(log) + [StatusPut(Failed, ImageMissing(ImagePath(a.topdir, image)))]
            && t.step == Stopped(Exited(1))
  {
    MilestonesAdd(log, StatusPut(Failed, ImageMissing(ImagePath(a.topdir, image))));
  }

  /** For major version 2, install_os posts OS-INSTALL and runs the single in-band install
      command for that image, failing with the command and its output in the message when the
      command fails. */
  lemma InstallOsInBand(log: seq<Event>, a: CliArgs, env: map<string, string>, facts: Facts, image: string, w: World)
    requires ImagePath(a.topdir, image) in w.files && facts.osMajor == Some(2)
    ensures var t := InstallOsTrace(log, a, env, facts, image, w);
            var cmd := InBandInstall(a.server, image);
            && Milestones(t.events)
               == Milestones(log) + [StatusPut(OsInstall, Installing(image)), Exec(cmd)]
                  + (if w.execute(cmd).allGood then []
                     else [StatusPut(Failed, CommandFailed(cmd.Text(), w.execute(cmd).results))])
            && (t.step.Next? <==> w.execute(cmd).allGood)
  {
    var t := InstallOsTrace(log, a, env, facts, image, w);
    var cmd := InBandInstall(a.server, image);
    var posted := log + [StatusPut(OsInstall, Installing(image))];
    var ran := posted + [Exec(cmd)];
    MilestonesAdd(log, StatusPut(OsInstall, Installing(image)));
    MilestonesAdd(posted, Exec(cmd));
    var m := Milestones(log) + [StatusPut(OsInstall, Installing(image)), Exec(cmd)];
    assert Milestones(ran) == m;
    if !w.execute(cmd).allGood {
      var failed := StatusPut(Failed, CommandFailed(cmd.Text(), w.execute(cmd).results));
      assert t.events == ran + [failed];
      MilestonesAdd(ran, failed);
    } else {
      assert t.events == ran;
      assert m + [] == m;
    }
  }

  /** Reaching the rescue shell: onie-select and reboot are the only milestones before it. */
  lemma RescueReached(log: seq<Event>, a: CliArgs, w: World)
    requires w.execute(OnieSelect).allGood
    ensures var rescue := PollRescue(log + [Exec(OnieSelect)] + [Exec(Reboot), Sleep(60)], a.target, 300, 10, "root", w.rescue, 0);
            rescue.step.Next? ==> Milestones(rescue.events) == Milestones(log) + [Exec(OnieSelect), Exec(Reboot)]
  {
    var selected := log + [Exec(OnieSelect)];
    var rebooted := selected + [Exec(Reboot), Sleep(60)];
    MilestonesAdd(log, Exec(OnieSelect));
    MilestonesPush2(selected, Exec(Reboot), Sleep(60));
    RescueWaitMilestones(rebooted, a.target, 300, 10, "root", w.rescue, 0);
  }

  /** The rescue-shell strategy, when it succeeds, runs onie-select and then reboot, goes
      through every step of onie_install, and ends with the facts of the device that comes
      back. */
  lemma RescueInstallSteps(log: seq<Event>, a: CliArgs, env: map<string, string>, image: string, w: World)
    ensures var t := RescueInstallTrace(log, a, env, image, w);
            t.step.Next? ==>
              && |t.events| > 0 && t.events[|t.events| - 1].FactsPut?
              && Milestones(t.events)
                 == Milestones(log) + [Exec(OnieSelect), Exec(Reboot)] + OnieSteps(a.server, image) + [t.events[|t.events| - 1]]
  {
    var t := RescueInstallTrace(log, a, env, image, w);
    if t.step.Next? {
      var rescue := PollRescue(log + [Exec(OnieSelect)] + [Exec(Reboot), Sleep(60)], a.target, 300, 10, "root", w.rescue, 0);
      var onie := OnieInstallTrace(rescue.events, a.server, image, "root", w.onie);
      assert w.execute(OnieSelect).allGood && rescue.step.Next? && onie.step.Next?;
      RescueReached(log, a, w);
      OnieInstallSteps(rescue.events, a.server, image, "root", w.onie);
      assert OnieSteps(a.server, image)[..6] == OnieSteps(a.server, image);
      var waited := onie.events + [Sleep(60)];
      MilestonesSkip(onie.events, Sleep(60));
      var user, passwd := LoginUser(a, env), LoginPasswd(a, env);
      assert Present(user) && Present(passwd);
      assert t.events == PollDevice(waited, a.target, user.value, passwd.value, 1800, 30, None, w.installWait, 0).events;
      DeviceWaitMilestones(waited, a.target, user.value, passwd.value, 1800, 30, None, w.installWait, 0);
      FactsPostedOnSuccess(waited, a.target, user.value, passwd.value, 1800, 30, None, w.installWait, 0);
    }
  }

  /** The waits of a successful rescue-shell install: after onie-select, reboot and a
      60-second sleep it waits for the rescue shell with wait_for_onie_rescue(300, 10), which
      logs in between once and RescueAttempts(300, 10) times and adds no milestone; only then
      come the ONIE-RESCUE post and the rest of onie_install, a 60-second sleep and
      wait_for_device(1800, 30), which makes between one and DeviceAttempts(1800, 30)
      attempts and whose only milestone, the last event, is the facts of the device. */
  lemma RescueInstallWaits(log: seq<Event>, a: CliArgs, env: map<string, string>, image: string, w: World)
    ensures var t := RescueInstallTrace(log, a, env, image, w);
            var rebooted := log + [Exec(OnieSelect)] + [Exec(Reboot), Sleep(60)];
            var rescue := PollRescue(rebooted, a.target, 300, 10, "root", w.rescue, 0);
            var waited := OnieInstallTrace(rescue.events, a.server, image, "root", w.onie).events + [Sleep(60)];
            t.step.Next? ==>
              && rebooted <= rescue.events && rescue.events <= waited && waited <= t.events
              && 1 <= Count(IsLogin, rescue.events) - Count(IsLogin, rebooted) <= RescueAttempts(300, 10)
              && Milestones(rescue.events) == Milestones(log) + [Exec(OnieSelect), Exec(Reboot)]
              && Milestones(waited) == Milestones(rescue.events) + OnieSteps(a.server, image)
              && 1 <= Count(IsProbe, t.events) - Count(IsProbe, waited) <= DeviceAttempts(1800, 30)
              && Milestones(t.events) == Milestones(waited) + [t.events[|t.events| - 1]]
              && t.events[|t.events| - 1].FactsPut?
  {
    var t := RescueInstallTrace(log, a, env, image, w);
    if t.step.Next? {
      var rebooted := log + [Exec(OnieSelect)] + [Exec(Reboot), Sleep(60)];
      var rescue := PollRescue(rebooted, a.target, 300, 10, "root", w.rescue, 0);
      var onie := OnieInstallTrace(rescue.events, a.server, image, "root", w.onie);
      assert w.execute(OnieSelect).allGood && rescue.step.Next? && onie.step.Next?;
      RescueReached(log, a, w);
      RescueLoginsBounded(rebooted, a.target, 300, 10, "root", w.rescue, 0);
      OnieInstallSteps(rescue.events, a.server, image, "root", w.onie);
      assert OnieSteps(a.server, image)[..6] == OnieSteps(a.server, image);
      var waited := onie.events + [Sleep(60)];
      MilestonesSkip(onie.events, Sleep(60));
      assert rescue.events <= waited;
      assert t.events == WaitForDeviceTrace(waited, a, env, 1800, 30, None, w.installWait).events;
      WaitForDeviceAttempts(waited, a, env, 1800, 30, None, w.installWait);
      WaitForDeviceMilestones(waited, a, env, 1800, 30, None, w.installWait);
    }
  }

  /** For every major version but 2, a successful install_os posts OS-INSTALL, runs onie-select
      and then reboot, waits for the rescue shell, goes through every step of onie_install,
      and ends with the facts of the device that comes back. After the OS-INSTALL post it is
      the rescue-shell strategy itself, so its waits are those of RescueInstallWaits. */
  lemma InstallOsFromRescue(log: seq<Event>, a: CliArgs, env: map<string, string>, facts: Facts, image: string, w: World)
    requires ImagePath(a.topdir, image) in w.files
    requires facts.osMajor.Some? && facts.osMajor.value != 2
    ensures var t := InstallOsTrace(log, a, env, facts, image, w);
            t == RescueInstallTrace(log + [StatusPut(OsInstall, Installing(image))], a, env, image, w)
    ensures var t := InstallOsTrace(log, a, env, facts, image, w);
            t.step.Next? ==>
              && |t.events| > 0 && t.events[|t.events| - 1].FactsPut?
              && Milestones(t.events)
                 == Milestones(log) + [StatusPut(OsInstall, Installing(image)), Exec(OnieSelect), Exec(Reboot)]
                    + (OnieSteps(a.server, image) + [t.events[|t.events| - 1]])
  {
    var t := InstallOsTrace(log, a, env, facts, image, w);
    var posted := log + [StatusPut(OsInstall, Installing(image))];
    assert t == RescueInstallTrace(posted, a, env, image, w);
    if t.step.Next? {
      MilestonesAdd(log, StatusPut(OsInstall, Installing(image)));
      RescueInstallSteps(posted, a, env, image, w);
      var last := t.events[|t.events| - 1];
      assert last.FactsPut?;
      assert Milestones(t.events) == Milestones(posted) + [Exec(OnieSelect), Exec(Reboot)] + OnieSteps(a.server, image) + [last];
      Regroup(Milestones(log), StatusPut(OsInstall, Installing(image)), OnieSteps(a.server, image), t.events[|t.events| - 1]);
    }
  }

  lemma Regroup(m: seq<Event>, x: Event, steps: seq<Event>, last: Event)
    ensures (m + [x]) + [Exec(OnieSelect), Exec(Reboot)] + steps + [last]
            == m + [x, Exec(OnieSelect), Exec(Reboot)] + (steps + [last])
  {
  }

  /** wait_for_device adds at most one milestone, its last event, and none when an exception
      escapes: a FAILED post when it gives up, the facts when it returns the device. */
  lemma WaitForDeviceMilestones(log: seq<Event>, a: CliArgs, env: map<string, string>, countdown: int, poll: int,
                                msg: Option<string>, probe: nat -> DeviceProbe)
    requires poll > 0
    ensures var t := WaitForDeviceTrace(log, a, env, countdown, poll, msg, probe);
            && |t.events| > |log|
            && Milestones(t.events) == Milestones(log) + (if t.step.Stopped? && t.step.stop.Crashed? then []
                                                          else [t.events[|t.events| - 1]])
            && (t.step.Next? ==> t.events[|t.events| - 1] == FactsPut(t.step.value))
  {
    var user, passwd := LoginUser(a, env), LoginPasswd(a, env);
    if !Present(user) {
      MilestonesAdd(log, StatusPut(Failed, UserMissing));
    } else if !Present(passwd) {
      MilestonesAdd(log, StatusPut(Failed, PasswdMissing));
    } else {
      DeviceWaitMilestones(log, a.target, user.value, passwd.value, countdown, poll, msg, probe, 0);
      FactsPostedOnSuccess(log, a.target, user.value, passwd.value, countdown, poll, msg, probe, 0);
    }
  }

  /** wait_for_device only adds to the log and makes at most DeviceAttempts(countdown, poll)
      attempts; it makes at least one when it returns a device, and none when the credentials
      are missing. */
  lemma WaitForDeviceAttempts(log: seq<Event>, a: CliArgs, env: map<string, string>, countdown: int, poll: int,
                              msg: Option<string>, probe: nat -> DeviceProbe)
    requires poll > 0
    ensures var t := WaitForDeviceTrace(log, a, env, countdown, poll, msg, probe);
            && log <= t.events
            && Count(IsProbe, t.events) <= Count(IsProbe, log) + DeviceAttempts(countdown, poll)
            && (t.step.Next? ==> Count(IsProbe, t.events) >= Count(IsProbe, log) + 1)
            && (!Present(LoginUser(a, env)) || !Present(LoginPasswd(a, env)) ==> Count(IsProbe, t.events) == Count(IsProbe, log))
  {
    var user, passwd := LoginUser(a, env), LoginPasswd(a, env);
    if !Present(user) {
      Push(IsProbe, log, StatusPut(Failed, UserMissing));
    } else if !Present(passwd) {
      Push(IsProbe, log, StatusPut(Failed, PasswdMissing));
    } else {
      AttemptsBounded(log, a.target, user.value, passwd.value, countdown, poll, msg, probe, 0);
    }
  }

  /** After a successful install, ensure_os_version posts OS-REBOOTING, runs reboot and waits
      for the device again exactly when the major version is below 3; from version 3 on it
      does nothing more. Below 3 it sleeps --init-delay seconds after the reboot (a negative
      delay makes the sleep raise) and then runs wait_for_device(reload_delay, 10), whose last
      event is its only milestone: the facts of the device that comes back, or its FAILED post. */
  lemma RebootIffBelowThree(log: seq<Event>, a: CliArgs, env: map<string, string>, facts: Facts, w: World)
    requires facts.osMajor.Some?
    ensures var t := RebootTrace(log, a, env, facts, w);
            var rebooted := log + [StatusPut(OsRebooting, Rebooting), Exec(Reboot)];
            var slept := rebooted + [Sleep(a.initDelay)];
            var back := WaitForDeviceTrace(slept, a, env, a.reloadDelay, 10, None, w.rebootWait);
            && (facts.osMajor.value >= 3 ==> t == Trace(log, Next(())))
            && (facts.osMajor.value < 3 && a.initDelay < 0 ==> t == Trace(rebooted, Stopped(Crashed(NegativeSleep))))
            && (facts.osMajor.value < 3 && a.initDelay >= 0 ==>
                  && t == Trace(back.events, if back.step.Stopped? then Stopped(back.step.stop) else Next(()))
                  && slept <= back.events
                  && Count(IsProbe, back.events) <= Count(IsProbe, slept) + DeviceAttempts(a.reloadDelay, 10)
                  && Milestones(back.events)
                     == Milestones(log) + [StatusPut(OsRebooting, Rebooting), Exec(Reboot)]
                        + (if back.step.Stopped? && back.step.stop.Crashed? then [] else [back.events[|back.events| - 1]])
                  && (back.step.Next? ==> back.events[|back.events| - 1] == FactsPut(back.step.value)
                                          && Count(IsProbe, back.events) > Count(IsProbe, slept)))
  {
    if facts.osMajor.value < 3 && a.initDelay >= 0 {
      var slept := log + [StatusPut(OsRebooting, Rebooting), Exec(Reboot)] + [Sleep(a.initDelay)];
      assert slept == log + [StatusPut(OsRebooting, Rebooting), Exec(Reboot), Sleep(a.initDelay)];
      MilestonesPush3(log, StatusPut(OsRebooting, Rebooting), Exec(Reboot), Sleep(a.initDelay));
      WaitForDeviceMilestones(slept, a, env, a.reloadDelay, 10, None, w.rebootWait);
      WaitForDeviceAttempts(slept, a, env, a.reloadDelay, 10, None, w.rebootWait);
    }
  }

  /** When the selector names no image, ensure_os_version runs the selector and nothing
      else: no OS-INSTALL post, no command, no reboot. */
  lemma NoImageNoInstall(log: seq<Event>, a: CliArgs, env: map<string, string>, facts: Facts, w: World)
    requires w.selector(facts).Json? && w.selector(facts).reply.ImageEntry? && !Present(w.selector(facts).reply.image)
    ensures var t := EnsureOsVersionTrace(log, a, env, facts, w);
            t.step == Next(()) && Milestones(t.events) == Milestones(log) + [OsSelect(facts)]
  {
    MilestonesAdd(log, OsSelect(facts));
  }

  /** When the first wait_for_device returns a virtual device, the run posts START, the
      facts and DONE and exits with 0: the selector never runs, and nothing is installed,
      executed or rebooted. A negative --init-delay makes the first sleep raise right after
      the START post, before any wait. */
  lemma VirtualSkipsInstall(a: CliArgs, env: map<string, string>, w: World, f: Facts)
    requires w.topdirExists
    requires WaitForDeviceTrace([StatusPut(Start, Started), Sleep(a.initDelay)], a, env, a.reloadDelay, 10,
                                Some(AccessMessage), w.firstWait).step == Next(f)
    requires f.virtual
    ensures var t := RunTrace([], a, env, w);
            && (a.initDelay < 0 ==> t == Trace([StatusPut(Start, Started)], Stopped(Crashed(NegativeSleep))))
            && (a.initDelay >= 0 ==>
                  && t.step == Stopped(Exited(0))
                  && Milestones(t.events) == [StatusPut(Start, Started), FactsPut(f), StatusPut(Done, Completed)])
  {
    if a.initDelay >= 0 {
      var started := [StatusPut(Start, Started), Sleep(a.initDelay)];
      assert started == [] + [StatusPut(Start, Started), Sleep(a.initDelay)];
      MilestonesPush2([], StatusPut(Start, Started), Sleep(a.initDelay));
      var first := WaitForDeviceTrace(started, a, env, a.reloadDelay, 10, Some(AccessMessage), w.firstWait);
      WaitForDeviceMilestones(started, a, env, a.reloadDelay, 10, Some(AccessMessage), w.firstWait);
      MilestonesAdd(first.events, StatusPut(Done, Completed));
    } else {
      assert [] + [StatusPut(Start, Started)] == [StatusPut(Start, Started)];
    }
  }
}
