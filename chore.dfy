/** src/models/chore.ts: a chore, its list of process tasks and their step numbers, and the
    `ChoreExecutionMode` enum. A new task's step is the task count minus one, and the
    renumbering after a removal is computed and thrown away; the intended versions of both
    are modelled beside them. */
module Chores {
  import opened Wrappers
  import opened JsValue
  import JsArray
  import TsEnums
  import Bindings
  import OrderedMap

  // ---------------------------------------------------------------------------
  // ChoreExecutionMode

  const ExecutionModeMembers: TsEnums.NumericMembers := [("SingleCommit", 0), ("MultipleCommit", 1)]

  /** `ChoreExecutionMode[key]`. */
  function ExecutionModeOf(key: string): (r: Js)
    ensures r.Num? || r.Str? || r.Undefined?
  {
    TsEnums.NumericLookup(ExecutionModeMembers, key)
  }

  /** SingleCommit = 0 and MultipleCommit = 1, with the reverse mapping. */
  lemma ExecutionModeCodes()
    ensures ExecutionModeOf("SingleCommit") == Num(0.0) && ExecutionModeOf("0") == Str("SingleCommit")
    ensures ExecutionModeOf("MultipleCommit") == Num(1.0) && ExecutionModeOf("1") == Str("MultipleCommit")
  {
    var ms := ExecutionModeMembers;
    assert TsEnums.WellformedNumeric(ms);
    TsEnums.NumericRoundTrip(ms, 0);
    TsEnums.NumericRoundTrip(ms, 1);
  }

  // ---------------------------------------------------------------------------
  // ChoreTask

  /** A task: its step as given (a number when `addTask` made it), the process it runs, and
      the parameter list as given. */
  datatype ChoreTask = ChoreTask(step: Js, processName: string, parameters: Js)

  function ProcessBind(processName: string): string {
    Bindings.Segment("Processes", processName)
  }

  const TaskKeys: seq<string> := ["Step", "Process@odata.bind", "Parameters"]

  lemma TaskKeysDistinct()
    ensures Distinct(TaskKeys)
  {
  }

  /** `task.body`: `Step`, the process binding and `Parameters`, in that order. */
  function TaskBody(t: ChoreTask): (r: Js)
    ensures KeysOf(r) == TaskKeys
    ensures Field(r, "Step") == t.step && Field(r, "Parameters") == t.parameters
    ensures Field(r, "Process@odata.bind") == Str(ProcessBind(t.processName))
  {
    var vs := [t.step, Str(ProcessBind(t.processName)), t.parameters];
    TaskKeysDistinct();
    FieldsOfKeys(TaskKeys, vs);
    assert TaskKeys[0] == "Step" && TaskKeys[1] == "Process@odata.bind" && TaskKeys[2] == "Parameters";
    Obj(Zip(TaskKeys, vs))
  }

  /** `ChoreTask.fromJson(data)`: `Step`, the name of the nested `Process` object, and
      `Parameters`. Reading `Process.Name` throws when `Process` is missing. */
  function TaskFromJson(data: Js): (r: Result<ChoreTask>)
    ensures data.Undefined? || data.Null? ==> r == Err(TypeError)
    ensures data.Obj? && (Field(data, "Process").Undefined? || Field(data, "Process").Null?) ==> r == Err(TypeError)
    ensures r.Ok? <==> !data.Undefined? && !data.Null? && !Field(data, "Process").Undefined? &&
                       !Field(data, "Process").Null? && Field(Field(data, "Process"), "Name").Str?
    ensures r.Ok? ==> r.value.step == Field(data, "Step") && r.value.parameters == Field(data, "Parameters") &&
                      Field(Field(data, "Process"), "Name") == Str(r.value.processName)
  {
    if data.Undefined? || data.Null? then Err(TypeError)
    else
      var processName :- Prop(Field(data, "Process"), "Name");
      var n :- AsString(processName);
      Ok(ChoreTask(Field(data, "Step"), n, Field(data, "Parameters")))
  }

  /** The bodies of a task list, in order. */
  function TaskBodies(ts: seq<ChoreTask>): (r: seq<Js>)
    ensures |r| == |ts| && forall i :: 0 <= i < |ts| ==> r[i] == TaskBody(ts[i])
  {
    seq(|ts|, i requires 0 <= i < |ts| => TaskBody(ts[i]))
  }

  // ---------------------------------------------------------------------------
  // Step numbers

  /** `task => task.step === step`. */
  function HasStep(step: real): ChoreTask -> bool {
    (t: ChoreTask) => t.step == Num(step)
  }

  /** Steps that number the tasks 0, 1, 2, … in list order. */
  predicate StepsAreIndices(ts: seq<ChoreTask>) {
    forall i :: 0 <= i < |ts| ==> ts[i].step == Num(i as real)
  }

  /** The task list after `addTask`: one task more, numbered with the old count minus one. */
  function WithTask(ts: seq<ChoreTask>, processName: string, parameters: Js): (r: seq<ChoreTask>)
    ensures |r| == |ts| + 1 && r[..|ts|] == ts
    ensures r[|ts|].processName == processName && r[|ts|].parameters == parameters
  {
    ts + [ChoreTask(Num((|ts| - 1) as real), processName, parameters)]
  }

  /** The task list after `addTask` as evidently intended: the new task is numbered with the
      old count, the next index. */
  function WithTaskIntended(ts: seq<ChoreTask>, processName: string, parameters: Js): (r: seq<ChoreTask>)
    ensures |r| == |ts| + 1 && r[..|ts|] == ts
    ensures r[|ts|].processName == processName && r[|ts|].parameters == parameters
  {
    ts + [ChoreTask(Num(|ts| as real), processName, parameters)]
  }

  /** The task list after `removeTask(step)`: the first task with that step spliced out, the
      last one when none has it. The steps of the others stay as they were. */
  function WithoutStep(ts: seq<ChoreTask>, step: real): (r: seq<ChoreTask>)
    ensures ts != [] ==> |r| == |ts| - 1
    ensures ts == [] ==> r == []
  {
    var i := JsArray.FindIndex(ts, HasStep(step));
    if i == -1 then JsArray.SpliceMinusOne(ts); JsArray.SpliceOne(ts, i)
    else JsArray.SpliceAtIndex(ts, i); JsArray.SpliceOne(ts, i)
  }

  /** `tasks.map((task, index) => ({...task, step: index}))`. */
  function Renumbered(ts: seq<ChoreTask>): (r: seq<ChoreTask>)
    ensures |r| == |ts|
    ensures forall i :: 0 <= i < |ts| ==> r[i] == ts[i].(step := Num(i as real))
  {
    seq(|ts|, i requires 0 <= i < |ts| => ts[i].(step := Num(i as real)))
  }

  // ---------------------------------------------------------------------------
  // Chore

  const ChoreKeys: seq<string> := ["Name", "StartTime", "DSTSensitive", "Active", "ExecutionMode", "Frequency", "Tasks"]

  lemma ChoreKeysDistinct()
    ensures Distinct(ChoreKeys)
  {
  }

  /** `chore.body`: the six header fields as stored, then the task bodies in task order. */
  function ChoreBody(name: Js, startTime: Js, dstSensitive: Js, active: Js, executionMode: Js, frequency: Js,
                     taskBodies: seq<Js>): (r: Js)
    ensures KeysOf(r) == ChoreKeys
    ensures Field(r, "Name") == name && Field(r, "StartTime") == startTime &&
            Field(r, "DSTSensitive") == dstSensitive && Field(r, "Active") == active &&
            Field(r, "ExecutionMode") == executionMode && Field(r, "Frequency") == frequency
    ensures Field(r, "Tasks") == Arr(taskBodies)
  {
    var vs := [name, startTime, dstSensitive, active, executionMode, frequency, Arr(taskBodies)];
    ChoreKeysDistinct();
    FieldsOfKeys(ChoreKeys, vs);
    assert ChoreKeys[0] == "Name" && ChoreKeys[1] == "StartTime" && ChoreKeys[2] == "DSTSensitive";
    assert ChoreKeys[3] == "Active" && ChoreKeys[4] == "ExecutionMode" && ChoreKeys[5] == "Frequency";
    assert ChoreKeys[6] == "Tasks";
    Obj(Zip(ChoreKeys, vs))
  }

  class Chore {
    var name: Js
    var startTime: Js
    var dstSensitive: Js
    var active: Js
    var executionMode: Js
    var frequency: Js
    var tasks: seq<ChoreTask>

    /** `new Chore(name, startTime, DSTSensitive, active, executionMode, frequency, tasks)`:
        every argument stored as given. */
    constructor (name: Js, startTime: Js, dstSensitive: Js, active: Js, executionMode: Js, frequency: Js,
                 tasks: seq<ChoreTask>)
      ensures this.name == name && this.startTime == startTime && this.dstSensitive == dstSensitive
      ensures this.active == active && this.executionMode == executionMode && this.frequency == frequency
      ensures this.tasks == tasks
    {
      this.name := name;
      this.startTime := startTime;
      this.dstSensitive := dstSensitive;
      this.active := active;
      this.executionMode := executionMode;
      this.frequency := frequency;
      this.tasks := tasks;
    }

    /** `addTask(processName, parameters)`. */
    method AddTask(processName: string, parameters: Js)
      modifies this
      ensures tasks == WithTask(old(tasks), processName, parameters)
      ensures name == old(name) && startTime == old(startTime) && dstSensitive == old(dstSensitive)
      ensures active == old(active) && executionMode == old(executionMode) && frequency == old(frequency)
    {
      var task := ChoreTask(Num((|tasks| - 1) as real), processName, parameters);
      tasks := tasks + [task];
    }

    /** `addTask` numbering the new task with the next index. */
    method AddTaskIntended(processName: string, parameters: Js)
      modifies this
      ensures tasks == WithTaskIntended(old(tasks), processName, parameters)
      ensures name == old(name) && startTime == old(startTime) && dstSensitive == old(dstSensitive)
      ensures active == old(active) && executionMode == old(executionMode) && frequency == old(frequency)
    {
      var task := ChoreTask(Num(|tasks| as real), processName, parameters);
      tasks := tasks + [task];
    }

    /** `removeTask(step)`: the renumbered list the source builds is discarded, so this is
        the splice alone. */
    method RemoveTask(step: real)
      modifies this
      ensures tasks == WithoutStep(old(tasks), step)
      ensures name == old(name) && startTime == old(startTime) && dstSensitive == old(dstSensitive)
      ensures active == old(active) && executionMode == old(executionMode) && frequency == old(frequency)
    {
      var taskIndex := JsArray.FindIndex(tasks, HasStep(step));
      tasks := JsArray.SpliceOne(tasks, taskIndex);
    }

    /** `removeTask` as evidently intended: the renumbered list is stored. */
    method RemoveTaskIntended(step: real)
      modifies this
      ensures tasks == Renumbered(WithoutStep(old(tasks), step))
      ensures name == old(name) && startTime == old(startTime) && dstSensitive == old(dstSensitive)
      ensures active == old(active) && executionMode == old(executionMode) && frequency == old(frequency)
    {
      var taskIndex := JsArray.FindIndex(tasks, HasStep(step));
      var kept := JsArray.SpliceOne(tasks, taskIndex);
      tasks := Renumbered(kept);
    }

    /** `chore.body`, with the task bodies pushed one by one. */
    method ConstructBody() returns (r: Js)
      ensures r == ChoreBody(name, startTime, dstSensitive, active, executionMode, frequency, TaskBodies(tasks))
    {
      var bodies := PushTaskBodies(tasks);
      r := ChoreBody(name, startTime, dstSensitive, active, executionMode, frequency, bodies);
    }
  }

  /** `for (const task of this.tasks) body.Tasks.push(task.body)`. */
  method PushTaskBodies(ts: seq<ChoreTask>) returns (bodies: seq<Js>)
    ensures bodies == TaskBodies(ts)
  {
    bodies := [];
    var i := 0;
    while i < |ts|
      invariant 0 <= i <= |ts| && |bodies| == i
      invariant forall j :: 0 <= j < i ==> bodies[j] == TaskBody(ts[j])
    {
      bodies := bodies + [TaskBody(ts[i])];
      i := i + 1;
    }
  }

  /** `data.Tasks.map(task => ChoreTask.fromJson(task))`: anything but an array has no
      `map`. */
  function TasksFromJson(tasks: Js): (r: Result<seq<ChoreTask>>)
    ensures !tasks.Arr? ==> r == Err(TypeError)
    ensures tasks.Arr? ==> r == MapResult(tasks.items, TaskFromJson)
  {
    if tasks.Arr? then MapResult(tasks.items, TaskFromJson) else Err(TypeError)
  }

  /** `Chore.fromJson(data)`: every field stored as the response carries it, and the tasks
      each read by `ChoreTask.fromJson`. It fails exactly when `data` or its tasks cannot be
      read. */
  method FromJson(data: Js) returns (r: Result<Chore>)
    ensures data.Undefined? || data.Null? ==> r == Err(TypeError)
    ensures !data.Undefined? && !data.Null? ==> (r.Ok? <==> TasksFromJson(Field(data, "Tasks")).Ok?)
    ensures !data.Undefined? && !data.Null? && r.Err? ==> r.error == TasksFromJson(Field(data, "Tasks")).error
    ensures r.Ok? ==> fresh(r.value) && TasksFromJson(Field(data, "Tasks")).Ok? &&
                      r.value.tasks == TasksFromJson(Field(data, "Tasks")).value
    ensures r.Ok? ==> r.value.name == Field(data, "Name") && r.value.startTime == Field(data, "StartTime") &&
                      r.value.dstSensitive == Field(data, "DSTSensitive") && r.value.active == Field(data, "Active") &&
                      r.value.executionMode == Field(data, "ExecutionMode") && r.value.frequency == Field(data, "Frequency")
  {
    if data.Undefined? || data.Null? {
      return Err(TypeError);
    }
    var tasks := TasksFromJson(Field(data, "Tasks"));
    if tasks.Err? {
      return Err(tasks.error);
    }
    var chore := new Chore(Field(data, "Name"), Field(data, "StartTime"), Field(data, "DSTSensitive"),
                           Field(data, "Active"), Field(data, "ExecutionMode"), Field(data, "Frequency"), tasks.value);
    r := Ok(chore);
  }

  // ---------------------------------------------------------------------------
  // Properties

  /** The first task with the step is removed and the others keep their order and steps. */
  lemma RemoveFirstWithStep(ts: seq<ChoreTask>, step: real, i: int)
    requires 0 <= i < |ts| && ts[i].step == Num(step)
    requires forall j :: 0 <= j < i ==> ts[j].step != Num(step)
    ensures WithoutStep(ts, step) == ts[..i] + ts[i + 1..]
  {
    assert JsArray.FindIndex(ts, HasStep(step)) == i;
    JsArray.SpliceAtIndex(ts, i);
  }

  /** No task with the step: the last task is removed. */
  lemma RemoveMissingStepDropsLast(ts: seq<ChoreTask>, step: real)
    requires ts != []
    requires forall j :: 0 <= j < |ts| ==> ts[j].step != Num(step)
    ensures WithoutStep(ts, step) == ts[..|ts| - 1]
  {
    assert JsArray.FindIndex(ts, HasStep(step)) == -1;
    JsArray.SpliceMinusOne(ts);
  }

  /** Every task left by `removeTask` was there before, with the step it had. */
  lemma RemoveKeepsSteps(ts: seq<ChoreTask>, step: real)
    ensures forall t :: t in WithoutStep(ts, step) ==> t in ts
  {
    JsArray.SpliceOneKeeps(ts, JsArray.FindIndex(ts, HasStep(step)));
  }

  /** The first task added to an empty chore gets step -1. */
  lemma FirstTaskStepIsMinusOne(processName: string, parameters: Js)
    ensures WithTask([], processName, parameters)[0].step == Num(-1.0)
  {
  }

  /** On a chore whose steps number its tasks, `addTask` repeats the last step. */
  lemma AddTaskRepeatsLastStep(ts: seq<ChoreTask>, processName: string, parameters: Js)
    requires ts != [] && StepsAreIndices(ts)
    ensures var r := WithTask(ts, processName, parameters); r[|ts|].step == r[|ts| - 1].step
    ensures !StepsAreIndices(WithTask(ts, processName, parameters))
  {
    var r := WithTask(ts, processName, parameters);
    assert r[|ts|].step == Num((|ts| - 1) as real);
  }

  /** The intended `addTask` keeps the steps numbering the tasks. */
  lemma AddTaskIntendedKeepsIndices(ts: seq<ChoreTask>, processName: string, parameters: Js)
    requires StepsAreIndices(ts)
    ensures StepsAreIndices(WithTaskIntended(ts, processName, parameters))
  {
    var r := WithTaskIntended(ts, processName, parameters);
    forall i | 0 <= i < |r| ensures r[i].step == Num(i as real) {
      if i < |ts| {
        assert r[i] == r[..|ts|][i];
      }
    }
  }

  /** On tasks numbered 0, 1, 2, …, removing any step but the last leaves the next task in
      its place with its old step: the steps no longer number the tasks. */
  lemma RemoveTaskLeavesGap(ts: seq<ChoreTask>, k: nat)
    requires StepsAreIndices(ts) && k + 1 < |ts|
    ensures |WithoutStep(ts, k as real)| == |ts| - 1
    ensures WithoutStep(ts, k as real)[k] == ts[k + 1]
    ensures !StepsAreIndices(WithoutStep(ts, k as real))
  {
    forall j | 0 <= j < k ensures ts[j].step != Num(k as real) {
      assert ts[j].step == Num(j as real);
    }
    RemoveFirstWithStep(ts, k as real, k);
    var r := WithoutStep(ts, k as real);
    assert r[k] == ts[k + 1];
    assert r[k].step == Num((k + 1) as real);
  }

  /** The intended `removeTask` leaves the tasks numbered 0, 1, 2, … */
  lemma RemoveTaskIntendedKeepsIndices(ts: seq<ChoreTask>, step: real)
    ensures StepsAreIndices(Renumbered(WithoutStep(ts, step)))
  {
  }

  /** A task read from a response binds the process named in it. */
  lemma TaskBodyBindsProcess(data: Js)
    requires TaskFromJson(data).Ok?
    ensures Field(TaskBody(TaskFromJson(data).value), "Process@odata.bind") ==
              Str(ProcessBind(Field(Field(data, "Process"), "Name").s))
  {
  }

  /** The process binding reads back as the process name, when the name holds no quote. */
  lemma ProcessBindRoundTrip(processName: string)
    requires Bindings.QuoteFree(processName)
    ensures Bindings.ParsePath(["Processes"], ProcessBind(processName)) == Some([processName])
  {
    Bindings.SegmentPathRoundTrip("Processes", processName);
  }

  /** A body is not a response: it carries the binding and no `Process` object, so reading
      it back as a task throws. */
  lemma TaskBodyIsNotAResponse(t: ChoreTask)
    ensures TaskFromJson(TaskBody(t)) == Err(TypeError)
  {
    var r := TaskBody(t);
    assert KeysOf(r) == TaskKeys;
    OrderedMap.HasIffInKeys(r.fields, "Process");
  }
}
