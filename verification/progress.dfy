/**
 * Upload progress tracking (src/api/upload_progress.py): one tracker per task id
 * in a process-wide registry, updated by the background ingestion task and read
 * by the progress endpoint.
 */
module Progress {
  import opened Wrappers

  /** The `status` strings a tracker reports; `Unknown` is only ever reported for a missing task. */
  datatype Status = Processing | Done | Error | Unknown

  function StatusName(s: Status): (r: string)
    ensures s == Processing <==> r == "processing"
    ensures s == Done <==> r == "done"
    ensures s == Error <==> r == "error"
    ensures s == Unknown <==> r == "unknown"
  {
    match s
    case Processing => "processing"
    case Done => "done"
    case Error => "error"
    case Unknown => "unknown"
  }

  const InitialMessage: string := "처리 중"
  const DoneMessage: string := "업로드 및 벡터 적재 완료"
  const NoInfoMessage: string := "진행 정보 없음"

  /** A tracker's state, which is also the dict `get_status` returns. */
  datatype Tracker = Tracker(taskId: string, progress: int, status: Status, message: string)

  /** `progress_dict`: task id to tracker. */
  type Registry = map<string, Tracker>

  /** Every tracker is filed under its own task id. */
  ghost predicate WellFormed(reg: Registry) {
    forall id :: id in reg ==> reg[id].taskId == id
  }

  /** `ProgressTracker(task_id)`: a fresh tracker registered under `task_id`, replacing any previous one. */
  function Create(reg: Registry, taskId: string): (r: Registry)
    ensures taskId in r && r[taskId] == Tracker(taskId, 0, Processing, InitialMessage)
    ensures r.Keys == reg.Keys + {taskId}
    ensures forall id :: id in reg && id != taskId ==> r[id] == reg[id]
    ensures WellFormed(reg) ==> WellFormed(r)
  {
    reg[taskId := Tracker(taskId, 0, Processing, InitialMessage)]
  }

  /**
   * `set_progress(value, message)`: records `value`; a non-empty message replaces
   * the current one; at 100 or more the tracker is done with the completion
   * message, whatever it was before.
   */
  function SetProgress(t: Tracker, value: int, message: Option<string>): (r: Tracker)
    ensures r.taskId == t.taskId && r.progress == value
    ensures value >= 100 ==> r.status == Done && r.message == DoneMessage
    ensures value < 100 ==> r.status == t.status
    ensures value < 100 && message.Some? && message.value != "" ==> r.message == message.value
    ensures value < 100 && (message.None? || message.value == "") ==> r.message == t.message
  {
    var t1 := t.(progress := value);
    var t2 := if message.Some? && message.value != "" then t1.(message := message.value) else t1;
    if value >= 100 then t2.(status := Done, message := DoneMessage) else t2
  }

  /** `set_error(message)`: error status, the given message, progress reset to 0. */
  function SetError(t: Tracker, message: string): (r: Tracker)
    ensures r.taskId == t.taskId
    ensures r.status == Error && r.message == message && r.progress == 0
  {
    t.(status := Error, message := message, progress := 0)
  }

  /**
   * `get_progress(task_id)`: the tracker's state when the task is registered,
   * otherwise the "unknown" record with progress 0.
   */
  function GetProgress(reg: Registry, taskId: string): (r: Tracker)
    ensures r.taskId == taskId || (taskId in reg && r == reg[taskId])
    ensures taskId in reg ==> r == reg[taskId]
    ensures taskId !in reg ==> r.status == Unknown && r.progress == 0 && r.message == NoInfoMessage
  {
    if taskId in reg then reg[taskId] else Tracker(taskId, 0, Unknown, NoInfoMessage)
  }

  /** A tracker update performed by the ingestion task. */
  datatype Update = Step(value: int, note: Option<string>) | Fail(reason: string)

  function Apply(t: Tracker, u: Update): Tracker {
    match u
    case Step(v, m) => SetProgress(t, v, m)
    case Fail(m) => SetError(t, m)
  }

  function ApplyAll(t: Tracker, us: seq<Update>): Tracker
    decreases |us|
  {
    if us == [] then t else ApplyAll(Apply(t, us[0]), us[1..])
  }

  /** An update that takes a tracker out of `processing`. */
  predicate Finishes(u: Update) {
    u.Fail? || u.value >= 100
  }

  /**
   * A tracker is still `processing` after a series of updates exactly when it was
   * before and no update failed or reached 100.
   */
  lemma {:induction false} StillProcessingIff(t: Tracker, us: seq<Update>)
    ensures ApplyAll(t, us).status == Processing <==>
      t.status == Processing && forall i :: 0 <= i < |us| ==> !Finishes(us[i])
    decreases |us|
  {
    if us != [] {
      StillProcessingIff(Apply(t, us[0]), us[1..]);
      assert forall i :: 1 <= i < |us| ==> us[i] == us[1..][i - 1];
    }
  }

  /** Updates never change the task id a tracker reports. */
  lemma {:induction false} ApplyAllKeepsId(t: Tracker, us: seq<Update>)
    ensures ApplyAll(t, us).taskId == t.taskId
    decreases |us|
  {
    if us != [] {
      ApplyAllKeepsId(Apply(t, us[0]), us[1..]);
    }
  }

  lemma {:induction false} ApplyAllSnoc(t: Tracker, us: seq<Update>, u: Update)
    ensures ApplyAll(t, us + [u]) == Apply(ApplyAll(t, us), u)
    decreases |us|
  {
    if us == [] {
      assert us + [u] == [u];
    } else {
      assert (us + [u])[1..] == us[1..] + [u];
      ApplyAllSnoc(Apply(t, us[0]), us[1..], u);
    }
  }

  /** The last update decides a finished tracker: a failure wins over earlier completion and vice versa. */
  lemma LastUpdateDecides(t: Tracker, us: seq<Update>, u: Update)
    requires Finishes(u)
    ensures u.Fail? ==> ApplyAll(t, us + [u]) == ApplyAll(t, us).(status := Error, message := u.reason, progress := 0)
    ensures u.Step? ==> ApplyAll(t, us + [u]).status == Done && ApplyAll(t, us + [u]).message == DoneMessage
  {
    ApplyAllSnoc(t, us, u);
  }

  /** The upload pipeline's happy path: 20, 40, 80 with notes, then 100, ends done at 100. */
  lemma HappyPath(reg: Registry, taskId: string, n20: string, n40: string, n80: string, n100: string)
    ensures var t := Create(reg, taskId)[taskId];
            var t2 := ApplyAll(t, [Step(20, Some(n20)), Step(40, Some(n40)), Step(80, Some(n80)), Step(100, Some(n100))]);
            t2 == Tracker(taskId, 100, Done, DoneMessage)
  {
    var t := Create(reg, taskId)[taskId];
    var us := [Step(20, Some(n20)), Step(40, Some(n40)), Step(80, Some(n80)), Step(100, Some(n100))];
    var t1 := Apply(t, us[0]);
    var t2 := Apply(t1, us[1]);
    var t3 := Apply(t2, us[2]);
    assert ApplyAll(t, us) == ApplyAll(t1, us[1..]);
    assert ApplyAll(t1, us[1..]) == ApplyAll(t2, us[2..]);
    assert ApplyAll(t2, us[2..]) == ApplyAll(t3, us[3..]);
    assert ApplyAll(t3, us[3..]) == ApplyAll(Apply(t3, us[3]), us[4..]);
  }

  /** Repeating the same progress update changes nothing. */
  lemma SetProgressIdempotent(t: Tracker, value: int, message: Option<string>)
    ensures SetProgress(SetProgress(t, value, message), value, message) == SetProgress(t, value, message)
  {
  }

  /** Neither update can bring a tracker back to `processing`. */
  lemma NoReturnToProcessing(t: Tracker, u: Update)
    requires t.status != Processing
    ensures Apply(t, u).status != Processing
  {
  }

  /** Updating a registered tracker keeps the registry well formed and touches no other task. */
  lemma UpdateInRegistry(reg: Registry, taskId: string, u: Update)
    requires WellFormed(reg) && taskId in reg
    ensures WellFormed(reg[taskId := Apply(reg[taskId], u)])
    ensures forall id :: id in reg && id != taskId ==> GetProgress(reg[taskId := Apply(reg[taskId], u)], id) == GetProgress(reg, id)
  {
  }
}
