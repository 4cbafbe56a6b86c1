/**
  The worker's job pipeline (worker/worker.py) as a class over its global
  state. Each iteration of a worker thread's loop, each incoming message and
  each startup step is a method; the threads' interleaving, blocking queue
  reads, subprocesses and files are replaced by the values those calls return,
  passed in as parameters.
*/
module Worker {
  import opened Common
  import opened Jobs

  /** A `type` field (absent or present) that none of the branches of `handle_extension_message` matches. */
  type OtherType = k: Option<string> | k !in {Some("hello"), Some("pong"), Some("result")} witness None

  /**
    A message from the extension as `handle_extension_message` reads it, one
    form per branch: each field is absent when the JSON lacks it.
  */
  datatype Incoming =
    | Hello(version: Option<string>)
    | Pong
    | Result(fileId: Option<string>, url: Option<string>, error: Option<string>)
    | Other(kind: OtherType)

  /** One rclone subprocess: it ran, printed `output` and exited with `returnCode`, or starting it raised `error`. */
  datatype RcloneRun = Spawned(output: seq<OutputLine>, returnCode: int) | SpawnFailed(error: string)

  /** `[q[0]]` for a non-empty queue, `[]` for an empty one: what one `get_nowait` takes. */
  function Head<T>(q: seq<T>): (h: seq<T>)
    ensures |h| <= 1 && |h| <= |q| && h == q[..|h|]
    ensures q != [] ==> h == [q[0]]
  {
    if q == [] then [] else [q[0]]
  }

  /**
    What `run_rclone` does for `job` when rclone behaves as `run`: the
    messages it sends, the progress times it records, and whether the id is
    saved as completed (only when rclone starts and exits with code 0).
  */
  ghost predicate Transferred(job: Job, run: RcloneRun,
                              sent0: seq<Message>, last0: map<FileId, int>, completed0: set<FileId>, file0: seq<string>,
                              sent1: seq<Message>, last1: map<FileId, int>, completed1: set<FileId>, file1: seq<string>)
  {
    var ok := run.Spawned? && run.returnCode == 0;
    && completed1 == (if ok then completed0 + {job.fileId} else completed0)
    && file1 == (if ok then file0 + [job.fileId + "\n"] else file0)
    && (run.SpawnFailed? ==>
          sent1 == sent0 + [RcloneStatus(job.fileId, job.fileName, Starting),
                            RcloneStatus(job.fileId, job.fileName, Error(run.error))]
          && last1 == last0)
    && (run.Spawned? ==>
          var m := Monitor(job.fileId, ClassifyAll(run.output), |run.output|, last0);
          && last1 == m.last
          && sent1 == sent0 + [RcloneStatus(job.fileId, job.fileName, Starting)] + m.out
                      + [RcloneStatus(job.fileId, job.fileName, if ok then Success else Failed(run.returnCode))])
  }

  class Pipeline {
    /** Configuration: the rclone remote, the optional rclone executable and the two parallelism limits. */
    const rcloneRemote: string
    const rclonePath: Option<string>
    const maxParallel: int
    const maxCaptures: int

    /** The three queues, oldest first. */
    var jobsQueue: seq<Job>
    var captureQueue: seq<Job>
    var transferQueue: seq<Transfer>
    /** Captures requested from the extension and not yet answered, by file id. */
    var activeCaptures: map<FileId, Job>
    var completed: set<FileId>
    /** The lines of the completed file, as appended by `save_completed`. */
    var completedFile: seq<string>
    /** The time of the last forwarded progress line of each file. */
    var lastProgressUpdate: map<FileId, int>
    /** Messages written to the extension, oldest first. */
    var sent: seq<Message>

    /** Capture slots are respected, and each active capture is stored under its own file id. */
    ghost predicate Valid()
      reads this`activeCaptures
    {
      (activeCaptures == map[] || |activeCaptures| <= maxCaptures)
      && forall f | f in activeCaptures :: activeCaptures[f].fileId == f
    }

    /** The state when the worker starts, with the configuration read from `CONFIG` and `config.json`. */
    constructor (remote: string, path: Option<string>, parallel: int, captures: int)
      ensures Valid()
      ensures rcloneRemote == remote && rclonePath == path && maxParallel == parallel && maxCaptures == captures
      ensures jobsQueue == [] && captureQueue == [] && transferQueue == [] && activeCaptures == map[]
      ensures completed == {} && completedFile == [] && lastProgressUpdate == map[] && sent == []
    {
      rcloneRemote, rclonePath, maxParallel, maxCaptures := remote, path, parallel, captures;
      jobsQueue, captureQueue, transferQueue, activeCaptures := [], [], [], map[];
      completed, completedFile, lastProgressUpdate, sent := {}, [], map[], [];
    }

    // ---------- Jobs ----------

    /**
      `load_jobs`, given the rows of the CSV file (`None` when it does not
      exist) and the lines of the completed file (`None` when it does not
      exist): the completed ids are added to `completed`, then the pending
      jobs are returned. Without a CSV file nothing is read at all.
    */
    method LoadJobs(csv: Option<seq<Row>>, completedLines: Option<seq<string>>) returns (jobs: seq<Job>)
      modifies this`completed
      ensures csv.None? ==> jobs == [] && completed == old(completed)
      ensures csv.Some? ==>
                completed == old(completed) + (if completedLines.Some? then LoadCompleted(completedLines.value) else {})
                && jobs == PendingJobs(csv.value, completed)
    {
      if csv.None? {
        return [];
      }
      if completedLines.Some? {
        completed := completed + LoadCompleted(completedLines.value);
      }
      jobs := PendingJobs(csv.value, completed);
    }

    /** `save_completed`: the id joins `completed` and is appended, with a newline, to the completed file. */
    method SaveCompleted(f: FileId)
      modifies this`completed, this`completedFile
      ensures completed == old(completed) + {f}
      ensures completedFile == old(completedFile) + [f + "\n"]
    {
      completed := completed + {f};
      completedFile := completedFile + [f + "\n"];
    }

    /**
      The start of `main`: `ready` is sent, the jobs are loaded and queued, and
      the first `min(max_parallel, len(jobs))` of them are moved on to the
      capture queue.
    */
    method Start(csv: Option<seq<Row>>, completedLines: Option<seq<string>>) returns (jobs: seq<Job>)
      requires Valid()
      modifies this`sent, this`completed, this`jobsQueue, this`captureQueue
      ensures Valid()
      ensures csv.None? ==> jobs == [] && completed == old(completed)
      ensures csv.Some? ==>
                completed == old(completed) + (if completedLines.Some? then LoadCompleted(completedLines.value) else {})
                && jobs == PendingJobs(csv.value, completed)
      ensures sent == old(sent) + [Ready]
      ensures var k := if maxParallel < 0 then 0 else if maxParallel < |jobs| then maxParallel else |jobs|;
        var all := old(jobsQueue) + jobs;
        captureQueue == old(captureQueue) + all[..k] && jobsQueue == all[k..]
      ensures transferQueue == old(transferQueue) && activeCaptures == old(activeCaptures)
      ensures completedFile == old(completedFile) && lastProgressUpdate == old(lastProgressUpdate)
    {
      sent := sent + [Ready];
      jobs := LoadJobs(csv, completedLines);
      if jobs != [] {
        jobsQueue := jobsQueue + jobs;
        QueueInitialCaptures(if maxParallel < |jobs| then maxParallel else |jobs|);
      }
    }

    /**
      The initial captures of `main`: `k` times a job is taken from the jobs
      queue, without waiting, and put on the capture queue; an empty jobs
      queue ends the loop early.
    */
    method QueueInitialCaptures(k: int)
      modifies this`jobsQueue, this`captureQueue
      ensures var n := if k < 0 then 0 else if k < |old(jobsQueue)| then k else |old(jobsQueue)|;
              captureQueue == old(captureQueue) + old(jobsQueue)[..n] && jobsQueue == old(jobsQueue)[n..]
    {
      var i := 0;
      while i < k
        invariant 0 <= i <= |old(jobsQueue)|
        invariant i <= k || i == 0
        invariant jobsQueue == old(jobsQueue)[i..]
        invariant captureQueue == old(captureQueue) + old(jobsQueue)[..i]
      {
        if jobsQueue == [] {
          break;
        }
        assert old(jobsQueue)[..i + 1] == old(jobsQueue)[..i] + [jobsQueue[0]];
        captureQueue := captureQueue + [jobsQueue[0]];
        jobsQueue := jobsQueue[1..];
        i := i + 1;
      }
    }

    /** One `get_nowait` from the jobs queue into the capture queue, when there is a job to move. */
    method PullNext()
      modifies this`jobsQueue, this`captureQueue
      ensures jobsQueue == if old(jobsQueue) == [] then [] else old(jobsQueue)[1..]
      ensures captureQueue == old(captureQueue) + Head(old(jobsQueue))
    {
      if jobsQueue != [] {
        captureQueue := captureQueue + [jobsQueue[0]];
        jobsQueue := jobsQueue[1..];
      }
    }

    // ---------- Worker threads ----------

    /**
      One iteration of `capture_worker`: with a free capture slot and a job
      waiting, the job is taken; unless it is already completed, it becomes an
      active capture and a `capture` request is sent for it.
    */
    method CaptureStep()
      requires Valid()
      modifies this`captureQueue, this`activeCaptures, this`sent
      ensures Valid()
      ensures !(|old(activeCaptures)| < maxCaptures && old(captureQueue) != []) ==> unchanged(this)
      ensures |old(activeCaptures)| < maxCaptures && old(captureQueue) != [] ==>
                var job := old(captureQueue)[0];
                && captureQueue == old(captureQueue)[1..]
                && (job.fileId !in completed ==>
                      activeCaptures == old(activeCaptures)[job.fileId := job]
                      && sent == old(sent) + [CaptureRequest(job.fileId)])
                && (job.fileId in completed ==> activeCaptures == old(activeCaptures) && sent == old(sent))
    {
      if |activeCaptures| < maxCaptures && captureQueue != [] {
        var job := captureQueue[0];
        captureQueue := captureQueue[1..];
        if job.fileId !in completed {
          activeCaptures := activeCaptures[job.fileId := job];
          sent := sent + [CaptureRequest(job.fileId)];
        }
      }
    }

    /** One iteration of `heartbeat_worker`: a `ping` is sent. */
    method Heartbeat()
      modifies this`sent
      ensures sent == old(sent) + [Ping]
    {
      sent := sent + [Ping];
    }

    /**
      The body of the output loop of `run_rclone` for one stripped and
      classified line: a progress line is forwarded and its time recorded only
      when none was forwarded for the file or the last one is at least
      `PROGRESS_INTERVAL` seconds old; an error line is always forwarded; any
      other line is read past.
    */
    method ReportLine(f: FileId, line: Seen)
      modifies this`sent, this`lastProgressUpdate
      ensures sent == old(sent) + MonitorLine(f, line, old(lastProgressUpdate)).out
      ensures lastProgressUpdate == MonitorLine(f, line, old(lastProgressUpdate)).last
    {
      if line.kind == Progress {
        if f !in lastProgressUpdate || line.at - lastProgressUpdate[f] >= PROGRESS_INTERVAL {
          sent := sent + [RcloneProgress(f, line.text)];
          lastProgressUpdate := lastProgressUpdate[f := line.at];
        }
      } else if line.kind == Failure {
        sent := sent + [RcloneError(f, line.text)];
      }
    }

    /** The output loop of `run_rclone`: each classified line is passed to `ReportLine` in order. */
    method MonitorOutput(f: FileId, lines: seq<Seen>)
      modifies this`sent, this`lastProgressUpdate
      ensures sent == old(sent) + Monitor(f, lines, |lines|, old(lastProgressUpdate)).out
      ensures lastProgressUpdate == Monitor(f, lines, |lines|, old(lastProgressUpdate)).last
    {
      ghost var start := sent;
      ghost var last0 := lastProgressUpdate;
      var i := 0;
      while i < |lines|
        invariant 0 <= i <= |lines|
        invariant sent == start + Monitor(f, lines, i, last0).out
        invariant lastProgressUpdate == Monitor(f, lines, i, last0).last
      {
        ghost var before := Monitor(f, lines, i, last0);
        ReportLine(f, lines[i]);
        assert sent == start + (before.out + MonitorLine(f, lines[i], before.last).out);
        i := i + 1;
      }
    }

    /**
      `run_rclone`: the `Starting` status is sent, rclone is started with the
      command returned in `cmd`, its output lines are monitored, and its exit
      code decides between `Success` (and recording the file as completed) and
      `Failed`; when rclone cannot be started, an `Error` status is sent.
    */
    method RunRclone(job: Job, url: string, run: RcloneRun) returns (ok: bool, cmd: seq<string>)
      modifies this`sent, this`lastProgressUpdate, this`completed, this`completedFile
      ensures cmd == RcloneCommand(Executable(rclonePath), url, Target(rcloneRemote, job.folderPath, job.fileName))
      ensures ok == (run.Spawned? && run.returnCode == 0)
      ensures Transferred(job, run, old(sent), old(lastProgressUpdate), old(completed), old(completedFile),
                          sent, lastProgressUpdate, completed, completedFile)
    {
      var f := job.fileId;
      cmd := RcloneCommand(Executable(rclonePath), url, Target(rcloneRemote, job.folderPath, job.fileName));
      sent := sent + [RcloneStatus(f, job.fileName, Starting)];
      match run
      case SpawnFailed(e) =>
        sent := sent + [RcloneStatus(f, job.fileName, Error(e))];
        ok := false;
      case Spawned(output, code) =>
        MonitorOutput(f, ClassifyAll(output));
        if code == 0 {
          sent := sent + [RcloneStatus(f, job.fileName, Success)];
          SaveCompleted(f);
          ok := true;
        } else {
          sent := sent + [RcloneStatus(f, job.fileName, Failed(code))];
          ok := false;
        }
    }

    /**
      One iteration of `transfer_worker`, with `run` standing for what rclone
      does: the oldest transfer is taken; rclone runs for it unless its file is
      already completed (the command is returned); then at most one job moves
      from the jobs queue to the capture queue. With no transfer waiting nothing happens.
    */
    method TransferStep(run: RcloneRun) returns (started: Option<seq<string>>)
      requires Valid()
      modifies this`transferQueue, this`sent, this`lastProgressUpdate, this`completed, this`completedFile
      modifies this`jobsQueue, this`captureQueue
      ensures Valid()
      ensures old(transferQueue) == [] ==> unchanged(this) && started.None?
      ensures old(transferQueue) != [] ==>
                var t := old(transferQueue)[0];
                && transferQueue == old(transferQueue)[1..]
                && (started.Some? <==> t.job.fileId !in old(completed))
                && (started.Some? ==> started.value == RcloneCommand(Executable(rclonePath), t.url,
                                                                   Target(rcloneRemote, t.job.folderPath, t.job.fileName)))
                && (started.None? ==> sent == old(sent) && completed == old(completed)
                                      && completedFile == old(completedFile)
                                      && lastProgressUpdate == old(lastProgressUpdate))
                && (started.Some? ==> Transferred(t.job, run, old(sent), old(lastProgressUpdate), old(completed),
                                                  old(completedFile), sent, lastProgressUpdate, completed, completedFile))
                && jobsQueue == (if old(jobsQueue) == [] then [] else old(jobsQueue)[1..])
                && captureQueue == old(captureQueue) + Head(old(jobsQueue))
    {
      if transferQueue == [] {
        return None;
      }
      var t := transferQueue[0];
      transferQueue := transferQueue[1..];
      started := None;
      if t.job.fileId !in completed {
        var _, cmd := RunRclone(t.job, t.url, run);
        started := Some(cmd);
      }
      PullNext();
    }

    // ---------- Messages from the extension ----------

    /**
      `handle_extension_message`: `hello` is answered with one `ready`; a
      `result` for an active capture ends it, queues its transfer when the URL
      is truthy, and pulls at most one job into the capture queue; everything
      else, including a `result` for a file that is not being captured,
      changes nothing.
    */
    method HandleMessage(msg: Incoming)
      requires Valid()
      modifies this`sent, this`activeCaptures, this`transferQueue, this`jobsQueue, this`captureQueue
      ensures Valid()
      ensures msg.Hello? ==> sent == old(sent) + [Ready] && activeCaptures == old(activeCaptures)
                             && transferQueue == old(transferQueue) && jobsQueue == old(jobsQueue)
                             && captureQueue == old(captureQueue)
      ensures !msg.Hello? && !(msg.Result? && msg.fileId.Some? && msg.fileId.value in old(activeCaptures)) ==> unchanged(this)
      ensures msg.Result? && msg.fileId.Some? && msg.fileId.value in old(activeCaptures) ==>
                var f := msg.fileId.value;
                var job := old(activeCaptures)[f];
                && activeCaptures == old(activeCaptures) - {f}
                && transferQueue == old(transferQueue) + (if Truthy(msg.url) then [Transfer(job, msg.url.value)] else [])
                && jobsQueue == (if old(jobsQueue) == [] then [] else old(jobsQueue)[1..])
                && captureQueue == old(captureQueue) + Head(old(jobsQueue))
                && sent == old(sent)
    {
      match msg
      case Hello(_) =>
        sent := sent + [Ready];
      case Result(fileId, url, _) =>
        if fileId.Some? && fileId.value in activeCaptures {
          var job := activeCaptures[fileId.value];
          activeCaptures := activeCaptures - {fileId.value};
          if Truthy(url) {
            transferQueue := transferQueue + [Transfer(job, url.value)];
          }
          PullNext();
        }
      case _ =>
    }
  }
}
