/** `display_trip_results` (WorkFlow/Agents.py): the crew result's task outputs
    turned into a dict from snake_case task name to cleaned text. */
module TripResults {
  import opened Wrappers
  import opened Text
  import opened OrderedDict

  /** One element of the crew result's `tasks_output`: its `.name` and `.raw`. */
  datatype TaskOutput = TaskOutput(name: string, raw: Option<string>)

  /** The crew result: `tasksOutput` is `None` when the result has no
      `tasks_output` attribute. */
  datatype CrewOutput = CrewOutput(tasksOutput: Option<seq<TaskOutput>>)

  /** The value stored for a task whose raw text is missing or empty. */
  const NoContent: string := "No content available."

  /** The dict key of a task name: lower-cased, each space an underscore. */
  function KeyOf(name: string): (key: string)
    ensures |key| == |name| && ' ' !in key
  {
    var key := ReplaceChar(Lower(name), ' ', '_');
    assert forall i :: 0 <= i < |key| ==> key[i] != ' ';
    key
  }

  /** Each character of the key is the name's character, lower-cased, with a
      space turned into an underscore. */
  lemma KeyOfAt(name: string, i: nat)
    requires i < |name|
    ensures KeyOf(name)[i] == if name[i] == ' ' then '_' else LowerChar(name[i])
  {
  }

  /** The value stored for a task: its raw text with every leading and trailing
      backtick removed and the middle untouched, or the sentinel when the raw
      text is falsy. */
  function Cleaned(raw: Option<string>): (v: string)
    ensures raw.None? || raw.value == "" ==> v == NoContent
    ensures raw.Some? && raw.value != "" ==>
      && (v == [] || (v[0] != '`' && v[|v| - 1] != '`'))
      && exists i :: Framed(raw.value, v, '`', i)
  {
    if raw.Some? && raw.value != "" then Strip(raw.value, '`') else NoContent
  }

  /** The assignment `final_result[task_name_key] = cleaned_content` one task makes. */
  function Assignment(task: TaskOutput): (string, string)
  {
    (KeyOf(task.name), Cleaned(task.raw))
  }

  /** The assignments the loop makes, in task order. */
  function Assignments(tasks: seq<TaskOutput>): (ps: seq<(string, string)>)
    ensures |ps| == |tasks| && forall i :: 0 <= i < |tasks| ==> ps[i] == Assignment(tasks[i])
  {
    seq(|tasks|, i requires 0 <= i < |tasks| => Assignment(tasks[i]))
  }

  /** What `display_trip_results` returns for a crew result. It is empty
      exactly when there is no `tasks_output` or it is empty. */
  function TripResult(result: CrewOutput): (d: Dict<string>)
    ensures d == [] <==> result.tasksOutput.None? || result.tasksOutput.value == []
  {
    if result.tasksOutput.Some? then Assign(Assignments(result.tasksOutput.value)) else []
  }

  /** The loop of `display_trip_results`. */
  method DisplayTripResults(result: CrewOutput) returns (finalResult: Dict<string>)
    ensures finalResult == TripResult(result)
  {
    finalResult := [];
    if result.tasksOutput.Some? && result.tasksOutput.value != [] {
      var tasks := result.tasksOutput.value;
      for i := 0 to |tasks|
        invariant finalResult == Assign(Assignments(tasks)[..i])
      {
        var task := tasks[i];
        var taskNameKey := KeyOf(task.name);
        var cleanedContent := Cleaned(task.raw);
        assert Assignments(tasks)[..i + 1][..i] == Assignments(tasks)[..i];
        finalResult := Insert(finalResult, taskNameKey, cleanedContent);
      }
      assert Assignments(tasks)[..|tasks|] == Assignments(tasks);
    } else {
      finalResult := [];
    }
  }

  /** The outputs of a crew result that has them. */
  function Outputs(result: CrewOutput): seq<TaskOutput>
  {
    if result.tasksOutput.Some? then result.tasksOutput.value else []
  }

  /** The result never holds a key twice, and has at most one key per output. */
  lemma TripResultShape(result: CrewOutput)
    ensures Valid(TripResult(result))
    ensures |TripResult(result)| <= |Outputs(result)|
  {
    AssignValid(Assignments(Outputs(result)));
    AssignSize(Assignments(Outputs(result)));
  }

  /** The keys are exactly the keys of the task names, and none holds a space. */
  lemma TripResultKeys(result: CrewOutput, k: string)
    ensures k in Keys(TripResult(result)) <==>
      exists i :: 0 <= i < |Outputs(result)| && KeyOf(Outputs(result)[i].name) == k
    ensures k in Keys(TripResult(result)) ==> ' ' !in k
  {
    var tasks := Outputs(result);
    AssignKeys(Assignments(tasks), k);
    if k in Keys(TripResult(result)) {
      var i :| 0 <= i < |tasks| && Assignments(tasks)[i].0 == k;
      assert KeyOf(tasks[i].name) == k;
    }
  }

  /** When several tasks share a key, the last of them supplies the value. */
  lemma TripResultLastWins(result: CrewOutput, j: nat)
    requires j < |Outputs(result)|
    requires forall i :: j < i < |Outputs(result)| ==>
      KeyOf(Outputs(result)[i].name) != KeyOf(Outputs(result)[j].name)
    ensures Get(TripResult(result), KeyOf(Outputs(result)[j].name)) ==
      Some(Cleaned(Outputs(result)[j].raw))
  {
    AssignLastWins(Assignments(Outputs(result)), j);
  }

  /** The keys the loop writes, in task order: one per task output, the key
      of its name. */
  function TaskKeys(tasks: seq<TaskOutput>): (ks: seq<string>)
    ensures |ks| == |tasks| && forall i :: 0 <= i < |tasks| ==> ks[i] == KeyOf(tasks[i].name)
  {
    Keys(Assignments(tasks))
  }

  /** The keys come in the order their task names first appear. */
  lemma TripResultKeyOrder(result: CrewOutput)
    ensures Keys(TripResult(result)) == FirstOccurrences(TaskKeys(Outputs(result)))
  {
    var ps := Assignments(Outputs(result));
    AssignKeyOrder(ps);
  }
}
