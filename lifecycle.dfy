/**
 * The state of the `EmailAutomation` controller and what each of its operations does
 * to it, as functions of the old state and of what the network answers. The class
 * `Controller.EmailAutomation` is proved to follow these functions; the lemmas here
 * state the rules the controller keeps.
 */
module Lifecycle {
  import opened Wrappers
  import opened Calendar
  import opened ReplyDetection
  import opened SearchCriteria

  /**
   * A connection slot (`smtp_server`, `imap_server`). `Open(false)` is a session whose
   * constructor succeeded but whose STARTTLS or login then failed: the setup methods
   * assign the slot before logging in, so such a session stays cached.
   */
  datatype Connection = Absent | Open(authenticated: bool)

  /** How far `setup_smtp_connection` / `setup_imap_connection` gets. */
  datatype SetupOutcome = ConnectFailed | AuthFailed | Connected

  /** The network's part in one `send_email`: setup (if needed), `sendmail`, and the clock after it. */
  datatype SendAttempt = SendAttempt(setup: SetupOutcome, delivered: bool, sentAt: Timestamp)

  /** The answer to selecting INBOX and searching it: an exception, or a status and the fetch of each hit. */
  datatype SearchOutcome = SearchRaised | Searched(statusOk: bool, found: seq<Fetch>)

  /** The network's part in one `check_for_replies`: setup (if needed), and the mailbox as a
      function of the criteria string it is searched with. */
  datatype CheckAttempt = CheckAttempt(setup: SetupOutcome, mailbox: string -> SearchOutcome)

  /** Whether SMTP `quit` and IMAP `logout` succeed in one `cleanup_connections`. */
  datatype CleanupOutcome = CleanupOutcome(quitOk: bool, logoutOk: bool)

  /** The network's part in one run of `scheduled_email_job` and in the `stop` it may call. */
  datatype Tick = Tick(check: CheckAttempt, send: SendAttempt, cleanup: CleanupOutcome)

  datatype State = State(
    smtpServer: Connection,
    imapServer: Connection,
    running: bool,
    lastEmailTime: Option<Timestamp>,
    scheduled: bool)   // whether the periodic job is registered with the scheduler

  /** The new state and the operation's boolean result. */
  datatype Step = Step(next: State, ok: bool)

  /** The state after the polling loop and how many jobs ran in it. */
  datatype Run = Run(final: State, jobs: nat)

  /** State of a freshly constructed controller. */
  const Initial: State := State(Absent, Absent, true, None, false)

  /** The job is registered only while running and only once an email has been sent. */
  predicate Consistent(s: State) {
    s.scheduled ==> s.running && s.lastEmailTime.Some?
  }

  /** The slot after a setup attempt on an empty slot: assigned as soon as the constructor succeeds. */
  function SlotAfterSetup(outcome: SetupOutcome): (c: Connection)
    ensures c.Absent? <==> outcome == ConnectFailed
    ensures c == Open(true) <==> outcome == Connected
  {
    match outcome
    case ConnectFailed => Absent
    case AuthFailed => Open(false)
    case Connected => Open(true)
  }

  /** `send_email`: only the SMTP slot and the time of the last send can change. */
  function Send(s: State, a: SendAttempt): (r: Step)
    ensures r.next.(smtpServer := s.smtpServer, lastEmailTime := s.lastEmailTime) == s
    ensures r.next.lastEmailTime == if r.ok then Some(a.sentAt) else s.lastEmailTime
    ensures r.ok <==> (s.smtpServer.Open? || a.setup == Connected) && a.delivered
    ensures r.ok ==> r.next.smtpServer.Open?
    ensures (s.smtpServer.Open? || a.setup == Connected) && !r.ok ==> r.next.smtpServer.Absent?
    ensures s.smtpServer.Absent? && a.setup != Connected ==> r.next == s.(smtpServer := SlotAfterSetup(a.setup))
  {
    if s.smtpServer.Absent? && a.setup != Connected then
      Step(s.(smtpServer := SlotAfterSetup(a.setup)), false)
    else if a.delivered then
      Step(s.(smtpServer := if s.smtpServer.Absent? then Open(true) else s.smtpServer, lastEmailTime := Some(a.sentAt)), true)
    else
      Step(s.(smtpServer := Absent), false)
  }

  /** What the mailbox answers to the criteria built from the state. */
  function Answer(s: State, recipient: string, c: CheckAttempt): SearchOutcome {
    c.mailbox(Criteria(recipient, s.lastEmailTime))
  }

  /**
   * The check gets as far as the search: the slot holds a logged-in session, or it is
   * empty and setup succeeds. A cached session whose login failed is still in the
   * not-authenticated state, where the IMAP client refuses SELECT.
   */
  predicate Searches(slot: Connection, setup: SetupOutcome) {
    slot == Open(true) || (slot.Absent? && setup == Connected)
  }

  /** `check_for_replies`: only the IMAP slot can change, and once the search is made a reply
      is reported exactly when some message is later than the last send and no fetch before
      it raised. */
  function Check(s: State, recipient: string, c: CheckAttempt): (r: Step)
    ensures r.next.(imapServer := s.imapServer) == s
    ensures r.ok ==> s.lastEmailTime.Some? && r.next.imapServer == Open(true)
    ensures r.ok ==> var answer := Answer(s, recipient, c);
      answer.Searched? && answer.statusOk && IsReply(Dates(answer.found), s.lastEmailTime)
    ensures Searches(s.imapServer, c.setup) && Answer(s, recipient, c).Searched? && Answer(s, recipient, c).statusOk
      ==> (r.ok <==> Scan(Answer(s, recipient, c).found, s.lastEmailTime) == ReplyFound)
    ensures Searches(s.imapServer, c.setup) && Answer(s, recipient, c).SearchRaised? ==> r.next.imapServer.Absent?
    ensures Searches(s.imapServer, c.setup) && Answer(s, recipient, c).Searched? && Answer(s, recipient, c).statusOk
      && Scan(Answer(s, recipient, c).found, s.lastEmailTime) == FetchFailed
      ==> r.next.imapServer.Absent?
    ensures Searches(s.imapServer, c.setup) && Answer(s, recipient, c).Searched?
      && (!Answer(s, recipient, c).statusOk || Scan(Answer(s, recipient, c).found, s.lastEmailTime) != FetchFailed)
      ==> r.next.imapServer == Open(true)
    ensures s.imapServer.Absent? && c.setup != Connected ==> r == Step(s.(imapServer := SlotAfterSetup(c.setup)), false)
    ensures s.imapServer == Open(false) ==> r == Step(s.(imapServer := Absent), false)
  {
    if s.imapServer.Absent? && c.setup != Connected then
      Step(s.(imapServer := SlotAfterSetup(c.setup)), false)
    else if s.imapServer == Open(false) then
      // `select` raises in the not-authenticated state; the outer handler empties the slot
      Step(s.(imapServer := Absent), false)
    else
      var connected := s.(imapServer := Open(true));
      match Answer(s, recipient, c)
      case SearchRaised => Step(s.(imapServer := Absent), false)
      case Searched(statusOk, found) =>
        if !statusOk || found == [] then Step(connected, false)
        else match Scan(found, s.lastEmailTime)
          case ReplyFound =>
            ReplyFoundIsReply(found, s.lastEmailTime);
            Step(connected, true)
          case NoReply => Step(connected, false)
          case FetchFailed => Step(s.(imapServer := Absent), false)
  }

  /** The converse of what `Check` promises: once the search is made, a search answered OK whose
      fetches all succeed and one of whose messages is later than the last send is reported
      as a reply. */
  lemma CheckFindsEveryReply(s: State, recipient: string, c: CheckAttempt)
    requires Searches(s.imapServer, c.setup)
    requires Answer(s, recipient, c).Searched? && Answer(s, recipient, c).statusOk
    requires NoneRaised(Answer(s, recipient, c).found)
    requires IsReply(Dates(Answer(s, recipient, c).found), s.lastEmailTime)
    ensures Check(s, recipient, c).ok
  {
    ScanDecidesIsReply(Answer(s, recipient, c).found, s.lastEmailTime);
  }

  /** `cleanup_connections`: each slot it closes becomes `Absent`; a failing `quit` ends it
      before the IMAP logout. */
  function Cleanup(s: State, c: CleanupOutcome): (r: State)
    ensures r.(smtpServer := s.smtpServer, imapServer := s.imapServer) == s
    ensures s.smtpServer.Open? && !c.quitOk ==> r == s
    ensures !(s.smtpServer.Open? && !c.quitOk) ==> r.smtpServer.Absent? && (r.imapServer.Absent? || (s.imapServer.Open? && !c.logoutOk && r.imapServer == s.imapServer))
  {
    if s.smtpServer.Open? && !c.quitOk then s
    else
      var closed := s.(smtpServer := Absent);
      if closed.imapServer.Open? && !c.logoutOk then closed else closed.(imapServer := Absent)
  }

  /** `stop`. */
  function Stop(s: State, c: CleanupOutcome): (r: State)
    ensures !r.running && !r.scheduled && r.lastEmailTime == s.lastEmailTime
  {
    Cleanup(s.(running := false, scheduled := false), c)
  }

  /** `scheduled_email_job`: check first; stop on a reply, otherwise make one send attempt. */
  function Job(s: State, recipient: string, t: Tick): (r: State)
    ensures !s.running ==> r == s
    ensures s.running && Check(s, recipient, t.check).ok ==> !r.running && r.lastEmailTime == s.lastEmailTime
    ensures s.running && !Check(s, recipient, t.check).ok ==> r.running && r.scheduled == s.scheduled
    ensures r.lastEmailTime != s.lastEmailTime ==> r.lastEmailTime == Some(t.send.sentAt)
    ensures s.running && Check(s, recipient, t.check).ok ==> r == Stop(Check(s, recipient, t.check).next, t.cleanup)
    ensures s.running && !Check(s, recipient, t.check).ok ==> r == Send(Check(s, recipient, t.check).next, t.send).next
  {
    if !s.running then s
    else
      var checked := Check(s, recipient, t.check);
      if checked.ok then Stop(checked.next, t.cleanup)
      else Send(checked.next, t.send).next
  }

  /** The polling loop of `start`: `ticks` are the job runs the scheduler would make, the end of
      the sequence standing for the interrupt; the loop also ends as soon as the controller stops. */
  function RunJobs(s: State, recipient: string, ticks: seq<Tick>): (r: Run)
    ensures r.jobs <= |ticks|
    ensures r.jobs < |ticks| ==> !r.final.running
    ensures s.running && ticks != [] ==> r.jobs >= 1
    decreases |ticks|
  {
    if !s.running || ticks == [] then Run(s, 0)
    else
      var rest := RunJobs(Job(s, recipient, ticks[0]), recipient, ticks[1..]);
      Run(rest.final, rest.jobs + 1)
  }

  /** `start`: an initial send, then (only if it succeeded) the job is scheduled, the loop runs,
      and `stop` ends it. */
  function Start(s: State, recipient: string, first: SendAttempt, ticks: seq<Tick>, last: CleanupOutcome): (r: Run)
    ensures !Send(s, first).ok ==> r.jobs == 0 && r.final.scheduled == s.scheduled
    ensures Send(s, first).ok ==> !r.final.running && !r.final.scheduled && r.final.lastEmailTime.Some?
  {
    var sent := Send(s, first);
    if !sent.ok then Run(sent.next, 0)
    else
      var run := RunJobs(sent.next.(scheduled := true), recipient, ticks);
      RunKeepsLastEmailTimeSet(sent.next.(scheduled := true), recipient, ticks);
      Run(Stop(run.final, last), run.jobs)
  }

  /** Every operation keeps `Consistent`. */
  lemma {:induction false} RunKeepsConsistent(s: State, recipient: string, ticks: seq<Tick>)
    requires Consistent(s)
    ensures Consistent(RunJobs(s, recipient, ticks).final)
    decreases |ticks|
  {
    if s.running && ticks != [] {
      RunKeepsConsistent(Job(s, recipient, ticks[0]), recipient, ticks[1..]);
    }
  }

  lemma StartKeepsConsistent(s: State, recipient: string, first: SendAttempt, ticks: seq<Tick>, last: CleanupOutcome)
    requires Consistent(s)
    ensures Consistent(Start(s, recipient, first, ticks, last).final)
  {
  }

  /** Once an email has been sent, every later state remembers a send. */
  lemma {:induction false} RunKeepsLastEmailTimeSet(s: State, recipient: string, ticks: seq<Tick>)
    requires s.lastEmailTime.Some?
    ensures RunJobs(s, recipient, ticks).final.lastEmailTime.Some?
    decreases |ticks|
  {
    if s.running && ticks != [] {
      RunKeepsLastEmailTimeSet(Job(s, recipient, ticks[0]), recipient, ticks[1..]);
    }
  }

  /** Only a send moves `last_email_time`: after a run it is the old value or the time of
      one of the sends the jobs that ran attempted. */
  lemma {:induction false} LastEmailTimeComesFromSends(s: State, recipient: string, ticks: seq<Tick>)
    ensures var r := RunJobs(s, recipient, ticks);
      r.final.lastEmailTime == s.lastEmailTime
      || exists i :: 0 <= i < r.jobs && r.final.lastEmailTime == Some(ticks[i].send.sentAt)
    decreases |ticks|
  {
    if s.running && ticks != [] {
      var next := Job(s, recipient, ticks[0]);
      LastEmailTimeComesFromSends(next, recipient, ticks[1..]);
      var r, rest := RunJobs(s, recipient, ticks), RunJobs(next, recipient, ticks[1..]);
      if r.final.lastEmailTime != s.lastEmailTime {
        if rest.final.lastEmailTime == next.lastEmailTime {
          assert r.final.lastEmailTime == Some(ticks[0].send.sentAt);
        } else {
          var i :| 0 <= i < rest.jobs && rest.final.lastEmailTime == Some(ticks[1..][i].send.sentAt);
          assert ticks[1..][i] == ticks[i + 1];
        }
      }
    }
  }

  /** No job runs once the controller is stopped: a stopped controller's run changes nothing. */
  lemma NoJobAfterStop(s: State, recipient: string, ticks: seq<Tick>)
    requires !s.running
    ensures RunJobs(s, recipient, ticks) == Run(s, 0)
  {
  }

  /** A reply ends the loop with the job that saw it: nothing is sent afterwards. */
  lemma {:induction false} ReplyEndsRun(s: State, recipient: string, ticks: seq<Tick>)
    requires s.running && ticks != [] && Check(s, recipient, ticks[0].check).ok
    ensures RunJobs(s, recipient, ticks).jobs == 1
    ensures RunJobs(s, recipient, ticks).final.lastEmailTime == s.lastEmailTime
  {
    NoJobAfterStop(Job(s, recipient, ticks[0]), recipient, ticks[1..]);
  }

  /** A failed send in one job does not stop the loop: the next job, unless it sees a
      reply, makes a new send attempt. */
  lemma FailedSendIsRetried(s: State, recipient: string, t1: Tick, t2: Tick)
    requires s.running && !Check(s, recipient, t1.check).ok
    requires !Send(Check(s, recipient, t1.check).next, t1.send).ok
    ensures var s1 := Job(s, recipient, t1);
      s1.running && s1.lastEmailTime == s.lastEmailTime
      && (!Check(s1, recipient, t2.check).ok ==>
            Job(s1, recipient, t2) == Send(Check(s1, recipient, t2.check).next, t2.send).next)
  {
  }

  /** A failed initial send returns before anything is scheduled and before the loop. */
  lemma InitialSendFailureNeverSchedules(s: State, recipient: string, first: SendAttempt, ticks: seq<Tick>, last: CleanupOutcome)
    requires !s.scheduled && !Send(s, first).ok
    ensures var r := Start(s, recipient, first, ticks, last);
      r.jobs == 0 && !r.final.scheduled && r.final == Send(s, first).next
  {
  }
}
