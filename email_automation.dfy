/**
 * The `EmailAutomation` controller: its connection slots, run flag, time of the last
 * send and scheduled job as fields, and its operations as methods that update them.
 * What the network, the clock and the scheduler do arrives as parameters; each method
 * is proved to follow the matching function of `Lifecycle`.
 */
module Controller {
  import opened Wrappers
  import opened Calendar
  import opened ReplyDetection
  import opened SearchCriteria
  import opened Lifecycle

  /** The fields of the configuration record the controller's logic reads. */
  datatype Config = Config(username: string, recipient: string)

  /** The username `load_config` writes into a new configuration file. */
  const PlaceholderUsername: string := "your_email@gmail.com"

  /** `main` refuses to start while the username is still the placeholder. */
  predicate HasPlaceholderCredentials(c: Config) {
    c.username == PlaceholderUsername
  }

  /** The configuration `load_config` creates when there is no file: never accepted by `main`. */
  function DefaultConfig(): (c: Config)
    ensures HasPlaceholderCredentials(c)
  {
    Config("your_email@gmail.com", "recipient@example.com")
  }

  class EmailAutomation {
    const config: Config
    var smtpServer: Connection
    var imapServer: Connection
    var running: bool
    var lastEmailTime: Option<Timestamp>
    var scheduled: bool

    /** The fields as a `Lifecycle.State`. */
    ghost function Snapshot(): Lifecycle.State
      reads this
    {
      Lifecycle.State(smtpServer, imapServer, running, lastEmailTime, scheduled)
    }

    constructor (config: Config)
      ensures this.config == config
      ensures Snapshot() == Initial
    {
      this.config := config;
      smtpServer := Absent;
      imapServer := Absent;
      running := true;
      lastEmailTime := None;
      scheduled := false;
    }

    /** `setup_smtp_connection`: the slot is assigned once the connection is made, before STARTTLS and login. */
    method SetupSmtpConnection(outcome: SetupOutcome) returns (ok: bool)
      modifies this
      ensures ok <==> outcome == Connected
      ensures Snapshot() == old(Snapshot()).(smtpServer :=
        if outcome == ConnectFailed then old(smtpServer) else SlotAfterSetup(outcome))
    {
      match outcome {
        case ConnectFailed =>
          return false;
        case AuthFailed =>
          smtpServer := Open(false);
          return false;
        case Connected =>
          smtpServer := Open(true);
          return true;
      }
    }

    /** `setup_imap_connection`: the slot is assigned once the connection is made, before login. */
    method SetupImapConnection(outcome: SetupOutcome) returns (ok: bool)
      modifies this
      ensures ok <==> outcome == Connected
      ensures Snapshot() == old(Snapshot()).(imapServer :=
        if outcome == ConnectFailed then old(imapServer) else SlotAfterSetup(outcome))
    {
      match outcome {
        case ConnectFailed =>
          return false;
        case AuthFailed =>
          imapServer := Open(false);
          return false;
        case Connected =>
          imapServer := Open(true);
          return true;
      }
    }

    /** `send_email`. */
    method SendEmail(attempt: SendAttempt) returns (sent: bool)
      modifies this
      ensures Snapshot() == Send(old(Snapshot()), attempt).next
      ensures sent == Send(old(Snapshot()), attempt).ok
    {
      if smtpServer.Absent? {
        var connected := SetupSmtpConnection(attempt.setup);
        if !connected {
          return false;
        }
      }
      if !attempt.delivered {
        smtpServer := Absent;
        return false;
      }
      lastEmailTime := Some(attempt.sentAt);
      return true;
    }

    /** `check_for_replies`. */
    method CheckForReplies(attempt: CheckAttempt) returns (replied: bool)
      modifies this
      ensures Snapshot() == Check(old(Snapshot()), config.recipient, attempt).next
      ensures replied == Check(old(Snapshot()), config.recipient, attempt).ok
    {
      ghost var before := Snapshot();
      ghost var after := Check(before, config.recipient, attempt);
      if imapServer.Absent? {
        var connected := SetupImapConnection(attempt.setup);
        if !connected {
          return false;
        }
      }
      if imapServer == Open(false) {
        // `select("INBOX")` raises on a session whose login failed
        imapServer := Absent;
        return false;
      }
      assert Snapshot() == before.(imapServer := Open(true));
      var criteria := Criteria(config.recipient, lastEmailTime);
      match attempt.mailbox(criteria) {
        case SearchRaised =>
          imapServer := Absent;
          return false;
        case Searched(statusOk, found) =>
          if statusOk && found != [] {
            var verdict := ScanFetched(found, lastEmailTime);
            if verdict == FetchFailed {
              imapServer := Absent;
              return false;
            }
            if verdict == ReplyFound {
              return true;
            }
          }
          assert after.next == Snapshot();
          return false;
      }
    }

    /** `cleanup_connections`. */
    method CleanupConnections(outcome: CleanupOutcome)
      modifies this
      ensures Snapshot() == Cleanup(old(Snapshot()), outcome)
    {
      if smtpServer.Open? {
        if !outcome.quitOk {
          return;
        }
        smtpServer := Absent;
      }
      if imapServer.Open? {
        if !outcome.logoutOk {
          return;
        }
        imapServer := Absent;
      }
    }

    /** `stop`. */
    method Stop(outcome: CleanupOutcome)
      modifies this
      ensures Snapshot() == Lifecycle.Stop(old(Snapshot()), outcome)
    {
      running := false;
      scheduled := false;
      CleanupConnections(outcome);
    }

    /** `scheduled_email_job`. */
    method ScheduledEmailJob(tick: Tick)
      modifies this
      ensures Snapshot() == Job(old(Snapshot()), config.recipient, tick)
    {
      if !running {
        return;
      }
      var replied := CheckForReplies(tick.check);
      if replied {
        Stop(tick.cleanup);
        return;
      }
      var _ := SendEmail(tick.send);
    }

    /**
     * `start`: `first` is the initial send, `ticks` the job runs the scheduler makes
     * before the interrupt arrives, `last` the cleanup of the final `stop`.
     */
    method Start(first: SendAttempt, ticks: seq<Tick>, last: CleanupOutcome) returns (jobs: nat)
      modifies this
      ensures Snapshot() == Lifecycle.Start(old(Snapshot()), config.recipient, first, ticks, last).final
      ensures jobs == Lifecycle.Start(old(Snapshot()), config.recipient, first, ticks, last).jobs
    {
      var sent := SendEmail(first);
      if !sent {
        return 0;
      }
      scheduled := true;
      ghost var begin := Snapshot();
      jobs := 0;
      while running && jobs < |ticks|
        invariant jobs <= |ticks|
        invariant RunJobs(begin, config.recipient, ticks)
               == Run(RunJobs(Snapshot(), config.recipient, ticks[jobs..]).final,
                      jobs + RunJobs(Snapshot(), config.recipient, ticks[jobs..]).jobs)
      {
        assert ticks[jobs..][1..] == ticks[jobs + 1..];
        ScheduledEmailJob(ticks[jobs]);
        jobs := jobs + 1;
      }
      Stop(last);
    }
  }

  /** `main`: build the controller and start it unless the configuration still holds the placeholder. */
  method Launch(config: Config, first: SendAttempt, ticks: seq<Tick>, last: CleanupOutcome)
    returns (automation: EmailAutomation, started: bool, jobs: nat)
    ensures fresh(automation) && automation.config == config
    ensures started <==> !HasPlaceholderCredentials(config)
    ensures !started ==> automation.Snapshot() == Initial && jobs == 0
    ensures started ==> automation.Snapshot() == Lifecycle.Start(Initial, config.recipient, first, ticks, last).final
    ensures started ==> jobs == Lifecycle.Start(Initial, config.recipient, first, ticks, last).jobs
  {
    automation := new EmailAutomation(config);
    if automation.config.username == PlaceholderUsername {
      return automation, false, 0;
    }
    jobs := automation.Start(first, ticks, last);
    started := true;
  }
}
