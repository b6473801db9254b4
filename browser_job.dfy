/** The hand-off of `BrowserJob`: a readiness gate, a task file written to the pending
    directory, and a bounded poll of the done directory for the matching result file. */
module BrowserJob {
  import opened Wrappers
  import opened Values
  import Text
  import opened Arith

  const PollInterval: nat := 5
  const PollTimeout: nat := 1800
  /** A progress line is logged whenever the elapsed seconds are a multiple of this. */
  const ProgressEvery: nat := 30
  /** Seconds slept after asking the system to launch the browser. */
  const LaunchGrace: nat := 3

  type Byte = x: int | 0 <= x < 256

  predicate IsHexDigit(c: char)
  {
    '0' <= c <= '9' || 'a' <= c <= 'f'
  }

  function HexDigit(d: int): (c: char)
    requires 0 <= d < 16
    ensures IsHexDigit(c)
  {
    if d < 10 then ('0' as int + d) as char else ('a' as int + d - 10) as char
  }

  /** Lower-case hexadecimal, two digits per byte, as `SecureRandom.hex` renders its bytes. */
  function Hex(bytes: seq<Byte>): (r: string)
    ensures |r| == 2 * |bytes|
    ensures forall i :: 0 <= i < |r| ==> IsHexDigit(r[i])
  {
    if bytes == [] then ""
    else [HexDigit(bytes[0] / 16), HexDigit(bytes[0] % 16)] + Hex(bytes[1..])
  }

  /** Distinct random bytes give distinct job ids. */
  lemma {:induction false} HexInjective(a: seq<Byte>, b: seq<Byte>)
    requires Hex(a) == Hex(b)
    ensures a == b
    decreases |a|
  {
    if a != [] {
      assert Hex(a)[0] == Hex(b)[0] && Hex(a)[1] == Hex(b)[1];
      assert a[0] / 16 == b[0] / 16 && a[0] % 16 == b[0] % 16;
      assert Hex(a)[2..] == Hex(a[1..]) && Hex(b)[2..] == Hex(b[1..]);
      HexInjective(a[1..], b[1..]);
      assert a == [a[0]] + a[1..] && b == [b[0]] + b[1..];
    }
  }

  /** The job id `SecureRandom.hex(12)` builds from its twelve random bytes. */
  function JobId(entropy: seq<Byte>): (jid: string)
    requires |entropy| == 12
    ensures |jid| == 24 && forall i :: 0 <= i < 24 ==> IsHexDigit(jid[i])
  {
    Hex(entropy)
  }

  function PendingDir(tasksDir: string): string { tasksDir + "/pending" }

  function DoneDir(tasksDir: string): string { tasksDir + "/done" }

  /** `File.join(dir, "#{jid}.json")`. */
  function TaskFile(dir: string, jid: string): string { dir + "/" + jid + ".json" }

  /** Different ids have different files in one directory. */
  lemma TaskFileInjective(dir: string, a: string, b: string)
    requires TaskFile(dir, a) == TaskFile(dir, b)
    ensures a == b
  {
    var n := |dir| + 1;
    assert a == TaskFile(dir, a)[n..n + |a|];
    assert b == TaskFile(dir, b)[n..n + |b|];
  }

  /** A task file is never mistaken for a result file. */
  lemma PendingIsNotDone(tasksDir: string, a: string, b: string)
    ensures TaskFile(PendingDir(tasksDir), a) != TaskFile(DoneDir(tasksDir), b)
  {
    var n := |tasksDir| + 1;
    assert TaskFile(PendingDir(tasksDir), a)[n] == 'p';
    assert TaskFile(DoneDir(tasksDir), b)[n] == 'd';
  }

  datatype TaskDescriptor = TaskDescriptor(jid: string, job: string, action: string, createdAt: string)

  /** The object `write_task` serialises, with exactly the keys jid, job, action, created_at. */
  function DescriptorJson(d: TaskDescriptor): (v: Value)
    ensures v.Hash? && v.entries.Keys == {"jid", "job", "action", "created_at"}
    ensures ReadDescriptor(v) == Some(d)
  {
    Hash(map["jid" := Str(d.jid), "job" := Str(d.job), "action" := Str(d.action), "created_at" := Str(d.createdAt)])
  }

  /** What a reader of a task file recovers: the four string fields, when all are present. */
  function ReadDescriptor(v: Value): Option<TaskDescriptor>
  {
    if v.Hash? && "jid" in v.entries && "job" in v.entries && "action" in v.entries && "created_at" in v.entries
       && v.entries["jid"].Str? && v.entries["job"].Str? && v.entries["action"].Str? && v.entries["created_at"].Str?
    then Some(TaskDescriptor(v.entries["jid"].s, v.entries["job"].s, v.entries["action"].s, v.entries["created_at"].s))
    else None
  }

  /** What the lock query gives `screen_unlocked?`: its printed output, or an exception. */
  datatype ScreenProbe = Printed(output: string) | Raised

  /** `screen_unlocked?`: unlocked when the query prints exactly "false" up to surrounding
      whitespace, and also when the query raises (fail open). */
  function ScreenUnlocked(p: ScreenProbe): (r: bool)
    ensures p.Raised? ==> r
    ensures p.Printed? ==> (r <==> exists i: nat, j: nat :: Text.PaddedAt(p.output, "false", i, j))
  {
    match p
    case Raised => true
    case Printed(output) =>
      Text.StripIsPadding(output, "false");
      Text.Strip(output) == "false"
  }

  /** An answer shorter than "false", such as an empty one or "true", keeps the gate shut. */
  lemma ShortAnswersLock(output: string)
    requires |output| < 5
    ensures !ScreenUnlocked(Printed(output))
  {
    forall i: nat, j: nat ensures !Text.PaddedAt(output, "false", i, j) {
      if i <= j <= |output| {
        assert |output[i..j]| == j - i <= |output| < |"false"|;
      }
    }
  }

  /** "false" followed by a line break opens the gate. */
  lemma FalseLineUnlocks()
    ensures ScreenUnlocked(Printed("false\n"))
  {
    assert Text.PaddedAt("false\n", "false", 0, 5);
  }

  /** The `status` and `output` fields of a parsed result file (`nil` when absent). */
  datatype ResultRecord = ResultRecord(status: Value, output: Value)

  datatype JobOutcome =
    | Completed(output: Value)   // `{ success: true, output: ... }`
    | Failed(message: string)    // raised: the agent reported an error
    | TimedOut(message: string)  // raised: no result file within the window
    | Locked(message: string)    // RetryLater: the screen is locked
    | PromptFailed(message: string)  // raised by the subclass's `action_prompt` while building the task

  /** How `wait_for_result` treats a result file: only the status "error" fails. */
  function Classify(jobName: string, rec: ResultRecord): (o: JobOutcome)
    ensures o.Failed? <==> rec.status == Str("error")
    ensures !o.Failed? ==> o == Completed(rec.output)
    ensures o.Failed? ==> o.message == jobName + " failed: " + Display(rec.output)
  {
    if rec.status == Str("error") then Failed(jobName + " failed: " + Display(rec.output))
    else Completed(rec.output)
  }

  /** A status other than "ok" or "error" still counts as success; a failure carries the output. */
  lemma ClassifyExamples(jobName: string)
    ensures Classify(jobName, ResultRecord(Str("ok"), Str("done"))) == Completed(Str("done"))
    ensures Classify(jobName, ResultRecord(Str("pending"), Nil)) == Completed(Nil)
    ensures Classify(jobName, ResultRecord(Nil, Str("x"))) == Completed(Str("x"))
    ensures var o := Classify(jobName, ResultRecord(Str("error"), Str("boom")));
      o.Failed? && Text.Contains(o.message, "boom")
  {
    var m := jobName + " failed: boom";
    assert Classify(jobName, ResultRecord(Str("error"), Str("boom"))).message == m;
    assert Text.OccursAt(m, "boom", |m| - 4);
  }

  function TimeoutMessage(jid: string, timeout: nat): string
  {
    "Task " + jid + " timed out after " + Text.NatToString(timeout) + "s - no result file found"
  }

  /** The number of checks `while elapsed < timeout` makes when elapsed grows by `interval`:
      the least n with n * interval >= timeout. */
  function CheckCount(timeout: nat, interval: nat): (n: nat)
    requires interval > 0
    ensures n * interval >= timeout
    ensures n > 0 ==> (n - 1) * interval < timeout
  {
    if timeout == 0 then 0 else 1 + CheckCount(if timeout <= interval then 0 else timeout - interval, interval)
  }

  lemma CheckCounts()
    ensures CheckCount(PollTimeout, PollInterval) == 360
    ensures CheckCount(10, 5) == 2
  {
    CountFromBounds(PollTimeout, PollInterval, 360);
    CountFromBounds(10, 5, 2);
  }

  /** The two bounds determine the count. */
  lemma CountFromBounds(timeout: nat, interval: nat, n: nat)
    requires interval > 0 && n * interval >= timeout && (n > 0 ==> (n - 1) * interval < timeout)
    ensures CheckCount(timeout, interval) == n
  {
    var m := CheckCount(timeout, interval);
    if m < n {
      MulMonotone(m, n - 1, interval);
    } else if n < m {
      MulMonotone(n, m - 1, interval);
    }
  }

  /** The loop condition `elapsed < timeout`, in terms of the number of checks made. */
  lemma BelowTimeout(attempt: nat, interval: nat, timeout: nat)
    requires interval > 0
    ensures attempt * interval < timeout <==> attempt < CheckCount(timeout, interval)
  {
    var n := CheckCount(timeout, interval);
    if attempt < n {
      MulMonotone(attempt, n - 1, interval);
    } else {
      MulMonotone(n, attempt, interval);
    }
  }

  /** The first check in `from..n` that sees the result file. */
  function FirstResult(observe: nat -> Option<ResultRecord>, from: nat, n: nat): (r: Option<nat>)
    decreases n - from
    ensures r.Some? ==> from <= r.value < n && observe(r.value).Some?
    ensures r.Some? ==> forall k :: from <= k < r.value ==> observe(k).None?
    ensures r.None? ==> forall k :: from <= k < n ==> observe(k).None?
  {
    if from >= n then None
    else if observe(from).Some? then Some(from)
    else FirstResult(observe, from + 1, n)
  }

  /** The elapsed values logged after the first `sleeps` sleeps. */
  function ProgressMarks(interval: nat, sleeps: nat): (r: seq<nat>)
    ensures forall i :: 0 <= i < |r| ==> r[i] % ProgressEvery == 0 && 0 < r[i] <= sleeps * interval
  {
    if sleeps == 0 then []
    else
      var earlier := ProgressMarks(interval, sleeps - 1);
      MulMonotone(sleeps - 1, sleeps, interval);
      earlier + (if (sleeps * interval) % ProgressEvery == 0 && sleeps * interval > 0 then [sleeps * interval] else [])
  }

  /** At the five-second interval a progress line follows every sixth sleep. */
  lemma {:induction false} ProgressEverySixthSleep(sleeps: nat)
    ensures |ProgressMarks(PollInterval, sleeps)| == sleeps / 6
  {
    if sleeps > 0 {
      ProgressEverySixthSleep(sleeps - 1);
      var q, m := sleeps / 6, sleeps % 6;
      assert sleeps == 6 * q + m;
      assert sleeps * 5 == 30 * q + 5 * m;
      assert (sleeps * 5) % 30 == 5 * m;
      if m == 0 {
        assert (sleeps - 1) / 6 == q - 1;
      } else {
        assert (sleeps - 1) / 6 == q;
      }
    }
  }

  /** What `wait_for_result` returns or raises. */
  function AwaitOutcome(jobName: string, jid: string, interval: nat, timeout: nat,
                        observe: nat -> Option<ResultRecord>): JobOutcome
    requires interval > 0
  {
    match FirstResult(observe, 0, CheckCount(timeout, interval))
    case Some(k) => Classify(jobName, observe(k).value)
    case None => TimedOut(TimeoutMessage(jid, timeout))
  }

  /** `wait_for_result`: `observe(k)` is what the k-th check (from 0) of the result file sees.
      Stops at the first check that sees a result, after one sleep per earlier check;
      with no result in the window it sleeps once per check and times out. */
  method WaitForResult(jobName: string, jid: string, interval: nat, timeout: nat,
                       observe: nat -> Option<ResultRecord>)
    returns (o: JobOutcome, ghost checks: nat, ghost sleeps: nat, ghost progress: seq<nat>)
    requires interval > 0
    ensures o == AwaitOutcome(jobName, jid, interval, timeout, observe)
    ensures var first := FirstResult(observe, 0, CheckCount(timeout, interval));
      if first.Some? then checks == first.value + 1 && sleeps == first.value
      else checks == sleeps == CheckCount(timeout, interval)
    ensures progress == ProgressMarks(interval, sleeps)
  {
    ghost var n := CheckCount(timeout, interval);
    var elapsed := 0;
    var attempt := 0;
    checks, sleeps, progress := 0, 0, [];
    BelowTimeout(0, interval, timeout);
    while elapsed < timeout
      invariant elapsed == attempt * interval && sleeps == attempt && checks == attempt
      invariant attempt <= n && (elapsed < timeout <==> attempt < n)
      invariant forall k :: 0 <= k < attempt ==> observe(k).None?
      invariant progress == ProgressMarks(interval, sleeps)
      decreases timeout - elapsed
    {
      var seen := observe(attempt);
      checks := checks + 1;
      if seen.Some? {
        o := Classify(jobName, seen.value);
        return;
      }
      MulSucc(attempt, interval);
      attempt := attempt + 1;
      elapsed := elapsed + interval;
      sleeps := sleeps + 1;
      assert ProgressMarks(interval, sleeps)
          == progress + (if elapsed % ProgressEvery == 0 && elapsed > 0 then [elapsed] else []);
      if elapsed % ProgressEvery == 0 {
        progress := progress + [elapsed];
      }
      BelowTimeout(attempt, interval, timeout);
    }
    o := TimedOut(TimeoutMessage(jid, timeout));
  }

  /** The observable actions of `perform`, in order. */
  datatype Step =
    | LaunchBrowser          // `open -a 'Google Chrome'`
    | Pause(seconds: nat)
    | WroteTask(path: string)
    | AwaitedResult(path: string)

  /** The mailbox directories: the pending-task files, by path, with their JSON content. */
  class Mailbox {
    const tasksDir: string
    var files: map<string, Value>

    constructor (tasksDir: string, files: map<string, Value>)
      ensures this.tasksDir == tasksDir && this.files == files
    {
      this.tasksDir := tasksDir;
      this.files := files;
    }

    /** `write_task`: the descriptor for `jid`, stored at `pending/<jid>.json`. */
    method WriteTask(jid: string, job: string, action: string, createdAt: string) returns (path: string)
      modifies this`files
      ensures path == TaskFile(PendingDir(tasksDir), jid)
      ensures files == old(files)[path := DescriptorJson(TaskDescriptor(jid, job, action, createdAt))]
    {
      path := TaskFile(PendingDir(tasksDir), jid);
      files := files[path := DescriptorJson(TaskDescriptor(jid, job, action, createdAt))];
    }
  }

  /** `perform`: the lock gate, the optional browser launch, then write and wait under one id.
      `action` is what the subclass's `action_prompt(options)` gives: its text, or the message
      of the error it raises (the base class always raises). The prompt is built inside
      `write_task`, after the launch and before the task file is written. `createdAt` is the
      clock's UTC timestamp, `entropy` the random bytes of the id; `observe` answers the checks
      of `done/<jid>.json`. */
  method Perform(box: Mailbox, jobName: string, action: Result<string, string>, createdAt: string,
                 screen: ScreenProbe, browserRunning: bool, entropy: seq<Byte>,
                 observe: nat -> Option<ResultRecord>)
    returns (o: JobOutcome, ghost steps: seq<Step>)
    requires |entropy| == 12
    modifies box`files
    ensures !ScreenUnlocked(screen) ==>
      o == Locked("Screen is locked - will retry when unlocked") && steps == [] && box.files == old(box.files)
    ensures ScreenUnlocked(screen) && action.Failure? ==>
      o == PromptFailed(action.error) && box.files == old(box.files)
      && steps == (if browserRunning then [] else [LaunchBrowser, Pause(LaunchGrace)])
    ensures ScreenUnlocked(screen) && action.Success? ==>
      var jid := JobId(entropy);
      var pending := TaskFile(PendingDir(box.tasksDir), jid);
      && box.files == old(box.files)[pending := DescriptorJson(TaskDescriptor(jid, jobName, action.value, createdAt))]
      && steps == (if browserRunning then [] else [LaunchBrowser, Pause(LaunchGrace)])
                  + [WroteTask(pending), AwaitedResult(TaskFile(DoneDir(box.tasksDir), jid))]
      && o == AwaitOutcome(jobName, jid, PollInterval, PollTimeout, observe)
  {
    if !ScreenUnlocked(screen) {
      return Locked("Screen is locked - will retry when unlocked"), [];
    }
    steps := [];
    if !browserRunning {
      steps := steps + [LaunchBrowser, Pause(LaunchGrace)];
    }
    var jid := JobId(entropy);
    if action.Failure? {
      return PromptFailed(action.error), steps;
    }
    var path := box.WriteTask(jid, jobName, action.value, createdAt);
    steps := steps + [WroteTask(path), AwaitedResult(TaskFile(DoneDir(box.tasksDir), jid))];
    ghost var checks, sleeps, progress;
    o, checks, sleeps, progress := WaitForResult(jobName, jid, PollInterval, PollTimeout, observe);
  }
}
