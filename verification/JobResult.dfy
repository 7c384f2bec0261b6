/** One job on a worker and its result: get_job, do_exec_job, execute_safe_command, send_result_back
    and the signal handlers that may interrupt them at any point. */
module JobResult {
  import opened CString

  const SIGINT := 2
  const SIGTERM := 15
  /** What the worker passes to clean_worker_exit when it ends by itself. */
  const NO_SIGNAL := 0
  const STATE_CRITICAL := 2

  datatype Origin = Normal | Timeout

  datatype Report = Report(origin: Origin, code: int)

  /** The primary and the duplicate server: what has been handed to add_job_to_queue for them. Whether that
      succeeds is a matter of Submission. */
  class Server {
    var results: seq<Report>
    var duplicates: seq<Report>

    constructor ()
      ensures results == [] && duplicates == []
    {
      results, duplicates := [], [];
    }
  }

  /** `resultQueue` belongs to the job; all else comes from the configuration. */
  datatype Options = Options(
    forkOnExec: bool, workaroundRc25: bool, timeoutReturn: int, dupServer: bool, resultQueue: bool)

  predicate IsCheck(jobType: Option<string>) {
    jobType == Some("service") || jobType == Some("host")
  }

  /** The exit codes that execute_safe_command passes on. */
  function FinalCode(code: nat, workaroundRc25: bool): nat {
    if code == 126 || code == 127 || 128 <= code < 144 then STATE_CRITICAL
    else if code > 3 && code != 25 && !workaroundRc25 then STATE_CRITICAL
    else code
  }

  /** A worker process, or the child it forks to run a plugin. Between any two statements Tick lets
      the signals in that can arrive there. A handler that ends the process is taken to return: that
      only adds runs. */
  class Process {
    const opt: Options
    const server: Server
    const jobType: Option<string>
    const hasCommand: bool

    var hasBeenSent: bool
    var output: Option<string>
    var returnCode: int
    var currentJob: bool
    var currentGearmanJob: bool
    var armed: bool
    var termBlocked: bool
    /** What has been marked as sent, and whether it had an output then. */
    ghost var marked: Report
    ghost var markedOutput: bool

    constructor (opt: Options, server: Server, jobType: Option<string>, hasCommand: bool)
      requires server.results == [] && server.duplicates == []
      ensures this.opt == opt && this.server == server && this.jobType == jobType && this.hasCommand == hasCommand
      ensures Valid() && Delivered() && !hasBeenSent && !currentJob && !currentGearmanJob && !armed && !termBlocked
    {
      this.opt, this.server, this.jobType, this.hasCommand := opt, server, jobType, hasCommand;
      hasBeenSent, output, returnCode := false, None, 0;
      currentJob, currentGearmanJob, armed, termBlocked := false, false, false, false;
      marked, markedOutput := Report(Normal, 0), false;
    }

    /** fork: a copy that talks to the same server. */
    constructor Fork(p: Process)
      requires p.Valid() && p.Delivered() && !p.armed
      ensures opt == p.opt && server == p.server && hasBeenSent == p.hasBeenSent && currentJob == p.currentJob && !armed
      ensures Valid() && Delivered()
    {
      opt, server, jobType, hasCommand := p.opt, p.server, p.jobType, p.hasCommand;
      hasBeenSent, output, returnCode := p.hasBeenSent, p.output, p.returnCode;
      currentJob, currentGearmanJob, armed, termBlocked := p.currentJob, p.currentGearmanJob, false, p.termBlocked;
      marked, markedOutput := p.marked, p.markedOutput;
    }

    /** What the mark amounts to: one result, unless there is no queue, no output or the return code
        that is suppressed. */
    ghost function Marked(): (r: seq<Report>)
      reads this
      ensures |r| <= 1
    {
      if hasBeenSent && opt.resultQueue && markedOutput && !(marked.code == 25 && opt.workaroundRc25) then [marked]
      else []
    }

    /** No call of send_result_back is under way. */
    ghost predicate Delivered()
      reads this, server
    {
      server.results == Marked() && server.duplicates == if opt.dupServer then Marked() else []
    }

    /** Holds wherever a signal can come in. */
    ghost predicate Valid()
      reads this, server
    {
      && server.results <= Marked() && server.duplicates <= Marked()
      && (armed ==> currentJob && Delivered())
      && (currentJob ==> currentGearmanJob)
      && (currentGearmanJob ==> termBlocked)
      && (hasBeenSent ==> marked.origin == Normal || (marked == Report(Timeout, opt.timeoutReturn) && !opt.forkOnExec))
    }

    /** Only the result of the job may have changed. */
    twostate predicate SameRun()
      reads this
    {
      && currentJob == old(currentJob) && currentGearmanJob == old(currentGearmanJob)
      && termBlocked == old(termBlocked)
    }

    /** What signals can do between two statements: while the alarm is set, replace the result by a
        timeout and send it; otherwise nothing to the job. */
    twostate predicate Interrupted()
      reads this, server
    {
      && SameRun()
      && (armed ==> old(armed))
      && (!old(armed) ==>
            && output == old(output) && returnCode == old(returnCode)
            && server.results == old(server.results) && server.duplicates == old(server.duplicates))
      && (old(hasBeenSent) || !old(armed) ==>
            hasBeenSent == old(hasBeenSent) && marked == old(marked) && markedOutput == old(markedOutput))
      && (hasBeenSent && !old(hasBeenSent) ==> marked == Report(Timeout, opt.timeoutReturn) && markedOutput)
      && (!hasBeenSent ==> output == old(output) && returnCode == old(returnCode))
      && (old(output) != None ==> output != None)
      && (old(Delivered()) ==> Delivered())
    }

    /** The point between two statements. */
    method Tick()
      requires Valid()
      modifies this, server
      ensures Valid() && Interrupted()
      decreases armed, 3
    {
      if * {
        var _ := CleanWorkerExit(SIGINT);
      } else if * {
        if !termBlocked { var _ := CleanWorkerExit(SIGTERM); }
      } else if armed {
        CheckAlarmHandler();
      }
    }

    /** clean_worker_exit, called by a signal that is not blocked or by the worker itself between two jobs.
        The failed result it has in store for a job of gearmand is never sent: SIGTERM is blocked while there
        is such a job, and when the worker ends by itself there is no current job, so that
        send_failed_result dereferences a null pointer. */
    method CleanWorkerExit(sig: int) returns (fatal: bool)
      requires Valid() && sig in {SIGINT, SIGTERM, NO_SIGNAL}
      requires (sig == SIGTERM ==> !termBlocked) && (sig == NO_SIGNAL ==> !currentJob)
      modifies this
      ensures Valid() && Interrupted()
      ensures fatal <==> currentGearmanJob && sig != SIGINT
      ensures fatal ==> sig == NO_SIGNAL && !currentJob
      decreases armed, 1
    {
      armed := false;
      if !currentGearmanJob || sig == SIGINT { return false; }
      if currentJob { assert false; }
      fatal := true;
    }

    /** check_alarm_handler; the alarm has gone off, and SIGALRM is blocked until the handler returns. */
    method CheckAlarmHandler()
      requires Valid() && armed
      modifies this, server
      ensures Valid() && Interrupted()
      decreases armed, 2
    {
      armed := false;
      if currentJob && !opt.forkOnExec { SendTimeoutResult(); }
    }

    method SendTimeoutResult()
      requires Valid() && Delivered() && !armed && !opt.forkOnExec
      modifies this, server
      ensures Valid() && Delivered() && !armed && hasBeenSent && output != None
      ensures SameRun()
      ensures old(hasBeenSent) ==> marked == old(marked) && markedOutput == old(markedOutput)
      ensures !old(hasBeenSent) ==> marked == Report(Timeout, opt.timeoutReturn) && markedOutput
      decreases armed, 5
    {
      returnCode := opt.timeoutReturn;
      Tick();
      output := Some("(Check Timed Out On Worker)");
      Tick();
      SendResultBack(Timeout);
    }

    /** send_result_back, as far as the queues. The mark is tested before it is set, so no handler that
        sends may come in between. */
    method SendResultBack(origin: Origin)
      requires Valid() && Delivered() && !armed
      requires origin == Normal || (origin == Timeout && returnCode == opt.timeoutReturn && !opt.forkOnExec)
      modifies this, server
      ensures Valid() && Delivered() && !armed && hasBeenSent && output == old(output) && returnCode == old(returnCode)
      ensures SameRun()
      ensures if old(hasBeenSent) then marked == old(marked) && markedOutput == old(markedOutput)
              else marked == Report(origin, returnCode) && markedOutput == (output != None)
      decreases armed, 4
    {
      if hasBeenSent { return; }
      Tick();
      hasBeenSent := true;
      marked, markedOutput := Report(origin, returnCode), output != None;
      Tick();
      if !opt.resultQueue { return; }
      if output == None { return; }
      if returnCode == 25 && opt.workaroundRc25 { return; }
      Tick();
      server.results := server.results + [Report(origin, returnCode)];
      Tick();
      if opt.dupServer { server.duplicates := server.duplicates + [Report(origin, returnCode)]; }
    }

    /** The forked child: its handler finds fork_on_exec set and sends nothing. */
    method RunChild()
      requires Valid() && Delivered() && currentJob && !hasBeenSent && !armed && opt.forkOnExec
      modifies this, server
      ensures Delivered() && !hasBeenSent
    {
      armed := true;
      Tick();
      Tick();
    }

    /** The return code with which execute_safe_command leaves a job that has not been sent: codes up to 3 are
        the plugin's own, all others are critical, unless they are 25 or the workaround for 25 is on. */
    predicate Reports(code: int, status: nat, late: bool, forkFails: bool) {
      if opt.forkOnExec && forkFails then code == 3
      else if late then code == opt.timeoutReturn
      else
        && (status <= 3 ==> code == status)
        && (status == 126 || status == 127 || 128 <= status <= 143 ==> code == 2)
        && ((3 < status < 126 || status > 143) && (status == 25 || opt.workaroundRc25) ==> code == status)
        && ((3 < status < 126 || status > 143) && status != 25 && !opt.workaroundRc25 ==> code == 2)
    }

    /** execute_safe_command. `status` is how the plugin ends, `late` says that it took too long. */
    method ExecuteSafeCommand(status: nat, late: bool, forkFails: bool)
      requires Valid() && Delivered() && currentJob && !hasBeenSent && !armed
      modifies this, server
      ensures Valid() && Delivered() && !armed && output != None
      ensures SameRun()
      ensures hasBeenSent ==> marked == Report(Timeout, opt.timeoutReturn) && markedOutput
      ensures !hasBeenSent ==> Reports(returnCode, status, late, forkFails)
    {
      if opt.forkOnExec {
        if forkFails {
          output := Some("(Error On Fork)");
          returnCode := 3;
          return;
        }
        var child := new Process.Fork(this);
        child.RunChild();
      } else {
        armed := true;
      }
      Collect(status);
      if late { OverrideByTimeout(); }
      Tick();
    }

    /** The result of the plugin is stored, then the alarm is switched off. */
    method Collect(status: nat)
      requires Valid() && Delivered() && currentJob && !hasBeenSent
      modifies this, server
      ensures Valid() && Delivered() && !armed && output != None
      ensures SameRun()
      ensures hasBeenSent ==> marked == Report(Timeout, opt.timeoutReturn) && markedOutput
      ensures !hasBeenSent ==> returnCode == FinalCode(status, opt.workaroundRc25)
    {
      Tick();
      output := Some("plugin output");
      Tick();
      returnCode := FinalCode(status, opt.workaroundRc25);
      Tick();
      armed := false;
    }

    /** The run time is checked again after the plugin has ended. */
    method OverrideByTimeout()
      requires Valid() && Delivered() && !armed
      modifies this, server
      ensures Valid() && Delivered() && !armed && output != None && returnCode == opt.timeoutReturn
      ensures SameRun()
      ensures hasBeenSent == old(hasBeenSent) && marked == old(marked) && markedOutput == old(markedOutput)
    {
      Tick();
      returnCode := opt.timeoutReturn;
      Tick();
      output := Some("(Check Timed Out On Worker)");
    }

    /** do_exec_job. `tooOld` says that the job has waited for longer than max_age. */
    method DoExecJob(tooOld: bool, status: nat, late: bool, forkFails: bool)
      requires Valid() && Delivered() && currentGearmanJob && !currentJob && !hasBeenSent && !armed
      modifies this, server
      ensures Valid() && Delivered() && !armed && !currentJob && currentGearmanJob && termBlocked == old(termBlocked)
      ensures hasBeenSent ==> markedOutput
      ensures Outcome(tooOld, status, late, forkFails)
    {
      if jobType == None { return; }
      if !hasCommand { return; }
      Tick();
      if tooOld {
        returnCode := 3;
        Tick();
        if IsCheck(jobType) {
          output := Some("(Could Not Start Check In Time)");
          Tick();
          SendResultBack(Normal);
        }
        return;
      }
      currentJob := true;
      Tick();
      ExecuteSafeCommand(status, late, forkFails);
      currentJob := false;
      Tick();
      if IsCheck(jobType) { SendResultBack(Normal); }
    }

    /** Which job is marked as sent, by whom and with which return code. */
    ghost predicate Outcome(tooOld: bool, status: nat, late: bool, forkFails: bool)
      reads this
    {
      if jobType == None || !hasCommand then !hasBeenSent
      else if tooOld then (hasBeenSent <==> IsCheck(jobType)) && (hasBeenSent ==> marked == Report(Normal, 3))
      else
        && (IsCheck(jobType) ==> hasBeenSent)
        && (hasBeenSent && marked.origin == Timeout ==> !opt.forkOnExec && marked.code == opt.timeoutReturn)
        && (hasBeenSent && marked.origin == Normal ==>
              IsCheck(jobType) && Reports(marked.code, status, late, forkFails))
    }

    /** A tick while the alarm is off leaves the job alone. */
    method QuietTick()
      requires Valid() && Delivered() && !armed
      modifies this, server
      ensures Valid() && Delivered() && !armed
      ensures hasBeenSent == old(hasBeenSent) && marked == old(marked) && markedOutput == old(markedOutput)
      ensures SameRun()
    {
      Tick();
    }

    /** The start of get_job: SIGTERM is blocked before the job becomes current. */
    method BeginJob()
      requires Valid() && Delivered() && !hasBeenSent && !currentJob
      modifies this, server
      ensures Valid() && Delivered() && !hasBeenSent && !currentJob && !armed && currentGearmanJob && termBlocked
    {
      armed := false;
      QuietTick();
      termBlocked := true;
      QuietTick();
      currentGearmanJob := true;
      QuietTick();
    }

    /** Its end: SIGTERM is let in again after the job has gone. */
    method EndJob()
      requires Valid() && Delivered() && !currentJob && !armed
      modifies this, server
      ensures Valid() && Delivered() && !currentJob && !armed && !currentGearmanJob && !termBlocked
      ensures hasBeenSent == old(hasBeenSent) && marked == old(marked) && markedOutput == old(markedOutput)
    {
      QuietTick();
      currentGearmanJob := false;
      QuietTick();
      termBlocked := false;
      QuietTick();
    }

    /** get_job; a job without usable data returns before its end and leaves SIGTERM blocked and the job
        current. Whenever a signal comes, Valid bounds what has been handed over; at the end Delivered and
        Outcome say exactly what has. */
    method GetJob(payload: bool, validLines: bool, tooOld: bool, status: nat, late: bool, forkFails: bool)
      requires Valid() && Delivered() && !hasBeenSent && !currentJob
      modifies this, server
      ensures Valid() && Delivered() && (hasBeenSent ==> markedOutput)
      ensures !currentJob && !armed && currentGearmanJob == termBlocked == !payload
      ensures if payload && validLines then Outcome(tooOld, status, late, forkFails) else !hasBeenSent
      ensures |server.results| <= 1 && |server.duplicates| <= 1
      ensures !opt.resultQueue ==> server.results == []
      ensures jobType != Some("service") && jobType != Some("host") && hasBeenSent ==> marked.origin == Timeout
      ensures payload && validLines && hasCommand && (jobType == Some("service") || jobType == Some("host"))
              && opt.resultQueue ==>
                |server.results| == if marked.code == 25 && opt.workaroundRc25 then 0 else 1
    {
      BeginJob();
      if !payload { return; }
      if validLines { DoExecJob(tooOld, status, late, forkFails); }
      EndJob();
    }

    /** The last job before the worker ends by itself, by max_jobs or its idle timeout: the worker dies of
        a null pointer, without freeing its slot, if and only if that job had no usable data. */
    method LastJob(payload: bool, validLines: bool, tooOld: bool, status: nat, late: bool, forkFails: bool)
      returns (fatal: bool)
      requires Valid() && Delivered() && !hasBeenSent && !currentJob
      modifies this, server
      ensures fatal <==> !payload
    {
      hide Outcome;
      GetJob(payload, validLines, tooOld, status, late, forkFails);
      fatal := CleanWorkerExit(NO_SIGNAL);
    }
  }
}
