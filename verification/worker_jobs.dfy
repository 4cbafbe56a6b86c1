/**
  The pure parts of the worker's job pipeline (worker/worker.py): turning CSV
  rows into jobs, reading the completed-ids file back, classifying and
  rate-limiting rclone's output lines, and building the rclone command.
*/
module Jobs {
  import opened Common

  type FileId = string

  /** One transfer job, as `load_jobs` builds it from a CSV row. */
  datatype Job = Job(fileId: FileId, folderPath: string, fileName: string, size: string,
                     mimeType: string, modTime: string, md5: string)

  /** A CSV row as `csv.DictReader` yields it: the value of every column the header names. */
  type Row = map<string, string>

  /** A captured video URL waiting for its transfer (an item of `transfer_queue`). */
  datatype Transfer = Transfer(job: Job, url: string)

  /** The `status` of an `rclone_status` message, with the fields each kind carries. */
  datatype TransferStatus = Starting | Success | Failed(code: int) | Error(error: string)

  /** The messages the worker sends to the extension. */
  datatype Message =
    | Ready
    | Ping
    | CaptureRequest(fileId: FileId)
    | RcloneStatus(fileId: FileId, fileName: string, status: TransferStatus)
    | RcloneProgress(fileId: FileId, progress: string)
    | RcloneError(fileId: FileId, error: string)

  // ---------- load_jobs ----------

  /** The job column named `column`, or `None` for a name that is not one of the seven job columns. */
  function Column(j: Job, column: string): Option<string> {
    match column
    case "file_id" => Some(j.fileId)
    case "folder_path" => Some(j.folderPath)
    case "file_name" => Some(j.fileName)
    case "size" => Some(j.size)
    case "mime_type" => Some(j.mimeType)
    case "mod_time" => Some(j.modTime)
    case "md5" => Some(j.md5)
    case _ => None
  }

  /** The value of `column` in `row`, or `default` when the CSV has no such column (`row.get`). */
  function Get(row: Row, column: string, default: string): string {
    if column in row then row[column] else default
  }

  /**
    The job built from a row that has a `file_id`: every job column the row
    has is copied, a missing `file_name` becomes `<file_id>.mp4`, and any other
    missing column becomes the empty string.
  */
  function MakeJob(row: Row): (j: Job)
    requires "file_id" in row
    ensures forall c :: c in row && Column(j, c).Some? ==> Column(j, c).value == row[c]
    ensures "file_name" !in row ==> j.fileName == row["file_id"] + ".mp4"
    ensures forall c :: c !in row && c != "file_name" && Column(j, c).Some? ==> Column(j, c).value == ""
  {
    var id := row["file_id"];
    Job(id, Get(row, "folder_path", ""), Get(row, "file_name", id + ".mp4"), Get(row, "size", ""),
        Get(row, "mime_type", ""), Get(row, "mod_time", ""), Get(row, "md5", ""))
  }

  /**
    The jobs `load_jobs` returns for `rows` read in CSV order: one per row whose
    `file_id` is not in `completed`. A row without a `file_id` column raises
    inside the `try`, so reading stops there and the jobs collected so far are
    returned.
  */
  function PendingJobs(rows: seq<Row>, completed: set<FileId>): (jobs: seq<Job>)
    ensures |jobs| <= |rows|
    ensures forall j | j in jobs :: j.fileId !in completed
    ensures forall j | j in jobs :: exists i | 0 <= i < |rows| :: "file_id" in rows[i] && j == MakeJob(rows[i])
  {
    if rows == [] || "file_id" !in rows[0] then []
    else
      var rest := PendingJobs(rows[1..], completed);
      assert forall j | j in rest :: exists i | 1 <= i < |rows| :: "file_id" in rows[i] && j == MakeJob(rows[i]) by {
        forall j | j in rest ensures exists i | 1 <= i < |rows| :: "file_id" in rows[i] && j == MakeJob(rows[i]) {
          var i :| 0 <= i < |rows[1..]| && "file_id" in rows[1..][i] && j == MakeJob(rows[1..][i]);
          assert rows[1..][i] == rows[i + 1];
        }
      }
      if rows[0]["file_id"] in completed then rest else [MakeJob(rows[0])] + rest
  }

  /** All rows have a `file_id` column. */
  predicate Keyed(rows: seq<Row>) {
    forall i | 0 <= i < |rows| :: "file_id" in rows[i]
  }

  /** Loading is compositional over well-formed rows: the jobs of `a + b` are those of `a` followed by those of `b`, in CSV order. */
  lemma {:induction false} PendingJobsAppend(a: seq<Row>, b: seq<Row>, completed: set<FileId>)
    requires Keyed(a)
    ensures PendingJobs(a + b, completed) == PendingJobs(a, completed) + PendingJobs(b, completed)
  {
    if a != [] {
      assert (a + b)[1..] == a[1..] + b;
      assert (a + b)[0] == a[0];
      PendingJobsAppend(a[1..], b, completed);
    } else {
      assert a + b == b;
    }
  }

  /** Nothing after a row without `file_id` is loaded. */
  lemma {:induction false} PendingJobsStopAtMissingId(a: seq<Row>, bad: Row, b: seq<Row>, completed: set<FileId>)
    requires Keyed(a) && "file_id" !in bad
    ensures PendingJobs(a + [bad] + b, completed) == PendingJobs(a, completed)
  {
    PendingJobsAppend(a, [bad] + b, completed);
    assert a + [bad] + b == a + ([bad] + b);
  }

  /** Every well-formed row before the first malformed one whose id is not completed is loaded. */
  lemma {:induction false} PendingJobsComplete(rows: seq<Row>, completed: set<FileId>, i: nat)
    requires i < |rows| && Keyed(rows[..i + 1])
    requires rows[i]["file_id"] !in completed
    ensures MakeJob(rows[i]) in PendingJobs(rows, completed)
  {
    PendingJobsAppend(rows[..i], rows[i..], completed);
    assert rows[..i] + rows[i..] == rows;
    assert rows[i..][0] == rows[i];
  }

  /** A larger `completed` set never loads more: the jobs are a subset. */
  lemma {:induction false} PendingJobsAntitone(rows: seq<Row>, c1: set<FileId>, c2: set<FileId>)
    requires c1 <= c2
    ensures forall j | j in PendingJobs(rows, c2) :: j in PendingJobs(rows, c1)
  {
    if rows != [] && "file_id" in rows[0] {
      PendingJobsAntitone(rows[1..], c1, c2);
    }
  }

  // ---------- The completed-ids file ----------

  /** The characters Python's `str.isspace` accepts, which `strip()` removes. */
  const WHITESPACE: set<char> := {
    '\t', '\n', '\U{B}', '\U{C}', '\r', '\U{1C}', '\U{1D}', '\U{1E}', '\U{1F}', ' ', '\U{85}', '\U{A0}', '\U{1680}',
    '\U{2000}', '\U{2001}', '\U{2002}', '\U{2003}', '\U{2004}', '\U{2005}', '\U{2006}', '\U{2007}', '\U{2008}',
    '\U{2009}', '\U{200A}', '\U{2028}', '\U{2029}', '\U{202F}', '\U{205F}', '\U{3000}'
  }

  predicate IsSpace(c: char) {
    c in WHITESPACE
  }

  /** Neither end of `s` is whitespace. */
  predicate Trimmed(s: string) {
    s == [] || (!IsSpace(s[0]) && !IsSpace(s[|s| - 1]))
  }

  /** The number of whitespace characters `s` starts with. */
  function LeadingSpace(s: string): (n: nat)
    ensures n <= |s|
    ensures forall i | 0 <= i < n :: IsSpace(s[i])
    ensures n < |s| ==> !IsSpace(s[n])
  {
    if s != [] && IsSpace(s[0]) then 1 + LeadingSpace(s[1..]) else 0
  }

  /** The number of whitespace characters `s` ends with. */
  function TrailingSpace(s: string): (n: nat)
    ensures n <= |s|
    ensures forall i | |s| - n <= i < |s| :: IsSpace(s[i])
    ensures n < |s| ==> !IsSpace(s[|s| - n - 1])
  {
    if s != [] && IsSpace(s[|s| - 1]) then 1 + TrailingSpace(s[..|s| - 1]) else 0
  }

  /** `r` is `s` with only whitespace cut off its two ends: it occurs at `i`, and all before and after it is whitespace. */
  predicate CutAt(s: string, r: string, i: int) {
    && OccursAt(s, r, i)
    && (forall k | 0 <= k < i :: IsSpace(s[k]))
    && (forall k | i + |r| <= k < |s| :: IsSpace(s[k]))
  }

  /** `s.strip()`: `s` without its leading and trailing whitespace. */
  function Strip(s: string): (r: string)
    ensures Trimmed(r)
    ensures CutAt(s, r, LeadingSpace(s))
  {
    var l := s[LeadingSpace(s)..];
    var r := l[..|l| - TrailingSpace(l)];
    assert OccursAt(s, r, LeadingSpace(s));
    r
  }

  /** The two ensures of `Strip` pin it down: any trimmed piece cut out of `s` by removing end whitespace is `Strip(s)`. */
  lemma StripUnique(s: string, r: string, i: int)
    requires Trimmed(r) && CutAt(s, r, i)
    ensures r == Strip(s)
  {
    var n := LeadingSpace(s);
    if r == [] {
      assert forall k | 0 <= k < |s| :: IsSpace(s[k]);
      assert n == |s|;
    } else {
      assert s[i] == r[0];
      assert n == i;
      var l := s[n..];
      assert l[|r| - 1] == r[|r| - 1];
      assert forall k | |r| <= k < |l| :: IsSpace(l[k]) by {
        forall k | |r| <= k < |l| ensures IsSpace(l[k]) {
          assert l[k] == s[i + k];
        }
      }
      assert TrailingSpace(l) == |l| - |r|;
    }
  }

  /** A string with no whitespace at its ends is its own strip. */
  lemma StripTrimmed(s: string)
    requires Trimmed(s)
    ensures Strip(s) == s
  {
  }

  /** Stripping twice is stripping once. */
  lemma StripIdempotent(s: string)
    ensures Strip(Strip(s)) == Strip(s)
  {
    StripTrimmed(Strip(s));
  }

  /** A line `save_completed` writes, with its newline, reads back as the id itself (when the id has no whitespace at its ends). */
  lemma StripSavedLine(id: string)
    requires Trimmed(id)
    ensures Strip(id + "\n") == id
  {
    var s := id + "\n";
    assert s[..|s| - 1] == id;
    assert IsSpace(s[|s| - 1]);
    if id == [] {
      assert s[1..] == [];
    } else {
      assert s[0] == id[0];
      assert TrailingSpace(s) == 1;
    }
  }

  /** The ids `load_jobs` adds to `completed` from the lines of the completed file. */
  function LoadCompleted(lines: seq<string>): (ids: set<FileId>)
    ensures forall id | id in ids :: Trimmed(id)
    ensures forall i | 0 <= i < |lines| :: Strip(lines[i]) in ids
  {
    set l | l in lines :: Strip(l)
  }

  /** Reading one more line adds exactly its stripped text. */
  lemma LoadCompletedSnoc(lines: seq<string>, line: string)
    ensures LoadCompleted(lines + [line]) == LoadCompleted(lines) + {Strip(line)}
  {
    var a := LoadCompleted(lines + [line]);
    var b := LoadCompleted(lines) + {Strip(line)};
    forall id | id in a ensures id in b {
      var l :| l in lines + [line] && id == Strip(l);
      if l != line {
        assert l in lines;
      }
    }
    forall id | id in b ensures id in a {
      if id != Strip(line) {
        var l :| l in lines && id == Strip(l);
        assert l in lines + [line];
      } else {
        assert line in lines + [line];
      }
    }
  }

  /** The lines of the completed file after `save_completed` has appended each of `ids` in turn. */
  function SavedLines(ids: seq<FileId>): (lines: seq<string>)
    ensures |lines| == |ids|
  {
    if ids == [] then [] else SavedLines(ids[..|ids| - 1]) + [ids[|ids| - 1] + "\n"]
  }

  /**
    An id `save_completed` writes as one line of the completed file: it holds
    no line break, so reading the file back in text mode (universal newlines,
    where both `'\n'` and `'\r'` end a line) does not split it.
  */
  predicate SingleLine(id: string) {
    '\n' !in id && '\r' !in id
  }

  /**
    Round trip of the completed file: reading back the saved lines gives
    exactly the saved ids, when each id has no whitespace at its ends and no
    line break inside.
  */
  lemma {:induction false} ReloadSaved(ids: seq<FileId>)
    requires forall i | 0 <= i < |ids| :: Trimmed(ids[i]) && SingleLine(ids[i])
    ensures LoadCompleted(SavedLines(ids)) == set i | i in ids
  {
    if ids != [] {
      var init := ids[..|ids| - 1];
      var last := ids[|ids| - 1];
      ReloadSaved(init);
      StripSavedLine(last);
      assert ids == init + [last];
      LoadCompletedSnoc(SavedLines(init), last + "\n");
      assert (set i | i in ids) == (set i | i in init) + {last};
    }
  }

  // ---------- rclone output monitoring ----------

  /** Seconds between two forwarded progress lines of one file. */
  const PROGRESS_INTERVAL: int := 300

  /** An output line of rclone as read, with the time (in whole seconds) at which the worker handled it. */
  datatype OutputLine = OutputLine(text: string, at: int)

  /** How the output loop treats a line. */
  datatype LineKind = Progress | Failure | Other

  /** An output line after `strip()` and classification. */
  datatype Seen = Seen(kind: LineKind, text: string, at: int)

  /**
    The stripped line and its kind: a progress line when it contains
    `Transferred:`, otherwise an error line when it contains `ERROR`,
    otherwise a line the worker only reads past.
  */
  function Classify(line: OutputLine): (seen: Seen)
    ensures seen.text == Strip(line.text) && seen.at == line.at
    ensures seen.kind == Progress <==> Contains(seen.text, "Transferred:")
    ensures seen.kind == Failure <==> !Contains(seen.text, "Transferred:") && Contains(seen.text, "ERROR")
  {
    var s := Strip(line.text);
    if Contains(s, "Transferred:") then Seen(Progress, s, line.at)
    else if Contains(s, "ERROR") then Seen(Failure, s, line.at)
    else Seen(Other, s, line.at)
  }

  /** Every line of `lines`, classified. */
  function ClassifyAll(lines: seq<OutputLine>): (seen: seq<Seen>)
    ensures |seen| == |lines|
  {
    if lines == [] then [] else ClassifyAll(lines[..|lines| - 1]) + [Classify(lines[|lines| - 1])]
  }

  /** The output loop sees each line of rclone's output classified on its own, in order. */
  lemma {:induction false} ClassifyAllEach(lines: seq<OutputLine>)
    ensures forall i | 0 <= i < |lines| :: ClassifyAll(lines)[i] == Classify(lines[i])
  {
    if lines != [] {
      var init := lines[..|lines| - 1];
      ClassifyAllEach(init);
      forall i | 0 <= i < |lines|
        ensures ClassifyAll(lines)[i] == Classify(lines[i])
      {
        if i < |init| {
          assert lines[i] == init[i];
        }
      }
    }
  }

  /** A progress line of `f` at time `at` may be forwarded: none was forwarded before, or the last one was at least 300 s earlier. */
  predicate Due(last: map<FileId, int>, f: FileId, at: int) {
    f !in last || at - last[f] >= PROGRESS_INTERVAL
  }

  /** What the monitor sends for some lines, and the `last_progress_update` table it leaves. */
  datatype Monitored = Monitored(out: seq<Message>, last: map<FileId, int>)

  /**
    One iteration of the output loop of `run_rclone` for file `f`: a progress
    line is forwarded as `rclone_progress` only when due, and only then is its
    time recorded; an error line is always forwarded as `rclone_error`; other
    lines send nothing.
  */
  function MonitorLine(f: FileId, line: Seen, last: map<FileId, int>): (m: Monitored)
    ensures m.out == [] || |m.out| == 1
    ensures m.out != [] && m.out[0].RcloneProgress? <==> line.kind == Progress && Due(last, f, line.at)
    ensures m.out != [] && m.out[0].RcloneError? <==> line.kind == Failure
    ensures m.out != [] ==> m.out[0] == RcloneProgress(f, line.text) || m.out[0] == RcloneError(f, line.text)
    ensures m.last == if m.out != [] && m.out[0].RcloneProgress? then last[f := line.at] else last
  {
    match line.kind
    case Progress =>
      if Due(last, f, line.at) then Monitored([RcloneProgress(f, line.text)], last[f := line.at])
      else Monitored([], last)
    case Failure => Monitored([RcloneError(f, line.text)], last)
    case Other => Monitored([], last)
  }

  /** The output loop of `run_rclone` over the first `n` of `lines`, starting from the table `last`. */
  function Monitor(f: FileId, lines: seq<Seen>, n: nat, last: map<FileId, int>): (m: Monitored)
    requires n <= |lines|
    ensures |m.out| <= n
    ensures forall g | g != f :: (g in m.last <==> g in last) && (g in last ==> m.last[g] == last[g])
    ensures f in last ==> f in m.last && m.last[f] >= last[f]
  {
    if n == 0 then Monitored([], last)
    else
      var before := Monitor(f, lines, n - 1, last);
      var step := MonitorLine(f, lines[n - 1], before.last);
      Monitored(before.out + step.out, step.last)
  }

  /** The monitor of a transfer only ever sends progress and error messages about that transfer's file. */
  lemma {:induction false} MonitorSendsOnlyAbout(f: FileId, lines: seq<Seen>, n: nat, last: map<FileId, int>)
    requires n <= |lines|
    ensures forall msg | msg in Monitor(f, lines, n, last).out :: (msg.RcloneProgress? || msg.RcloneError?) && msg.fileId == f
  {
    if n > 0 {
      MonitorSendsOnlyAbout(f, lines, n - 1, last);
    }
  }

  /** The line at index `i` is a progress line that the monitor forwards. */
  predicate ForwardedAt(f: FileId, lines: seq<Seen>, last: map<FileId, int>, i: int)
    requires 0 <= i < |lines|
  {
    lines[i].kind == Progress && Due(Monitor(f, lines, i, last).last, f, lines[i].at)
  }

  /** Once a time is recorded for `f`, it stays recorded and never decreases as more lines are monitored. */
  lemma {:induction false} RecordedNeverDecreases(f: FileId, lines: seq<Seen>, last: map<FileId, int>, a: nat, b: nat)
    requires a <= b <= |lines|
    requires f in Monitor(f, lines, a, last).last
    ensures f in Monitor(f, lines, b, last).last
    ensures Monitor(f, lines, b, last).last[f] >= Monitor(f, lines, a, last).last[f]
  {
    if a < b {
      RecordedNeverDecreases(f, lines, last, a, b - 1);
    }
  }

  /**
    The rate limit: two progress lines of one transfer that are both forwarded
    are at least 300 seconds apart, whatever the times of the lines between them.
  */
  lemma ProgressSpacing(f: FileId, lines: seq<Seen>, last: map<FileId, int>, i: nat, j: nat)
    requires i < j < |lines|
    requires ForwardedAt(f, lines, last, i) && ForwardedAt(f, lines, last, j)
    ensures lines[j].at - lines[i].at >= PROGRESS_INTERVAL
  {
    assert Monitor(f, lines, i + 1, last).last[f] == lines[i].at;
    RecordedNeverDecreases(f, lines, last, i + 1, j);
  }

  /** While nothing was forwarded, no time is recorded for a file that had none. */
  lemma {:induction false} NoForwardNoRecord(f: FileId, lines: seq<Seen>, last: map<FileId, int>, n: nat)
    requires n <= |lines| && f !in last
    requires forall k | 0 <= k < n :: !ForwardedAt(f, lines, last, k)
    ensures f !in Monitor(f, lines, n, last).last
  {
    if n > 0 {
      NoForwardNoRecord(f, lines, last, n - 1);
      assert !ForwardedAt(f, lines, last, n - 1);
    }
  }

  /** The first progress line of a file that had no recorded time is always forwarded. */
  lemma FirstProgressForwarded(f: FileId, lines: seq<Seen>, last: map<FileId, int>, i: nat)
    requires i < |lines| && f !in last
    requires lines[i].kind == Progress
    requires forall k | 0 <= k < i :: !ForwardedAt(f, lines, last, k)
    ensures ForwardedAt(f, lines, last, i)
  {
    NoForwardNoRecord(f, lines, last, i);
  }

  /** Error lines are never dropped: each one adds its `rclone_error` to what was sent and leaves the table alone. */
  lemma ErrorForwarded(f: FileId, lines: seq<Seen>, last: map<FileId, int>, i: nat)
    requires i < |lines| && lines[i].kind == Failure
    ensures Monitor(f, lines, i + 1, last).out == Monitor(f, lines, i, last).out + [RcloneError(f, lines[i].text)]
    ensures Monitor(f, lines, i + 1, last).last == Monitor(f, lines, i, last).last
  {
  }

  // ---------- The rclone command ----------

  /** The executable `run_rclone` starts: the configured `rclone_path` when it is truthy, else `rclone` from the PATH. */
  function Executable(rclonePath: Option<string>): (exe: string)
    ensures exe != ""
    ensures Truthy(rclonePath) ==> exe == rclonePath.value
    ensures !Truthy(rclonePath) ==> exe == "rclone"
  {
    if Truthy(rclonePath) then rclonePath.value else "rclone"
  }

  /** The copy destination `<remote>:<folder_path>/<file_name>`. */
  function Target(remote: string, folderPath: string, fileName: string): (t: string)
    ensures |t| == |remote| + |folderPath| + |fileName| + 2
    ensures StartsWith(t, remote + ":")
    ensures t[|remote| + 1..|remote| + 1 + |folderPath|] == folderPath
    ensures t[|t| - |fileName|..] == fileName && t[|t| - |fileName| - 1] == '/'
  {
    remote + ":" + folderPath + "/" + fileName
  }

  /** The index of the last `/` in `s`, or -1 when there is none. */
  function LastSlash(s: string): (k: int)
    ensures -1 <= k < |s|
    ensures k >= 0 ==> s[k] == '/'
    ensures forall i | k < i < |s| :: s[i] != '/'
  {
    if s == [] then -1
    else if s[|s| - 1] == '/' then |s| - 1
    else LastSlash(s[..|s| - 1])
  }

  /** The slash `Target` puts before the file name is the last one when the name has none. */
  lemma {:induction false} LastSlashOfTarget(head: string, name: string)
    requires '/' !in name
    ensures LastSlash(head + "/" + name) == |head|
  {
    if name != [] {
      var s := head + "/" + name;
      assert s[..|s| - 1] == head + "/" + name[..|name| - 1];
      assert name[|name| - 1] in name;
      LastSlashOfTarget(head, name[..|name| - 1]);
    }
  }

  /**
    Given the remote, a target names its folder and its file unambiguously
    when file names contain no `/`: folder and name are read back from the
    position of the last `/`.
  */
  lemma TargetInjective(remote: string, p1: string, n1: string, p2: string, n2: string)
    requires '/' !in n1 && '/' !in n2
    requires Target(remote, p1, n1) == Target(remote, p2, n2)
    ensures p1 == p2 && n1 == n2
  {
    var t := Target(remote, p1, n1);
    assert t == (remote + ":" + p1) + "/" + n1;
    assert t == (remote + ":" + p2) + "/" + n2;
    LastSlashOfTarget(remote + ":" + p1, n1);
    LastSlashOfTarget(remote + ":" + p2, n2);
    assert n1 == t[|remote| + 1 + |p1| + 1..] == n2;
    assert p1 == t[|remote| + 1..|remote| + 1 + |p1|] == p2;
  }

  /** The browser identity rclone presents to Google's servers. */
  const USER_AGENT: string :=
    "User-Agent: Mozilla/5.0 (Macintosh; Intel Mac OS X 10_15_7) AppleWebKit/537.36 (KHTML, like Gecko) Chrome/141.0.0.0 Safari/537.36"

  /** The argument vector `run_rclone` spawns: `copyurl` from the captured URL to the target, with fixed headers, threading and retry options. */
  function RcloneCommand(exe: string, url: string, target: string): (cmd: seq<string>)
    ensures |cmd| == 19
    ensures cmd[0] == exe && cmd[1] == "copyurl" && cmd[2] == url && cmd[3] == target
  {
    [exe, "copyurl", url, target,
     "--header", USER_AGENT,
     "--header", "Referer: https://drive.google.com/",
     "--multi-thread-cutoff", "0",
     "--multi-thread-streams", "16",
     "--retries", "5",
     "--low-level-retries", "10",
     "--retries-sleep", "20s",
     "--progress"]
  }
}
