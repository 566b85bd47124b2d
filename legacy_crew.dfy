/** The result dict of `TripCrew.run` in the top-level Agents.py: four fixed
    slots filled by position from `tasks_output`, each with its own fallback. */
module LegacyCrew {
  import opened Wrappers
  import opened TripResults

  /** The slot keys, in slot order. */
  const SlotKeys: seq<string> := ["city_selection", "city_research", "itinerary", "budget"]

  /** The text a slot holds when the crew produced fewer outputs. */
  const Fallbacks: seq<string> := [
    "\U{274C} No city selection found.",
    "\U{274C} No city research found.",
    "\U{274C} No itinerary generated.",
    "\U{274C} No budget breakdown available."
  ]

  /** Slot `i`: output `i`'s `.raw` as it is when there is one, else the fallback. */
  function Slot(tasks: seq<TaskOutput>, i: nat): Option<string>
    requires i < 4
  {
    if |tasks| > i then tasks[i].raw else Some(Fallbacks[i])
  }

  /** `final_result`: the empty dict without a `tasks_output` attribute;
      otherwise exactly the four slot keys, slot `i` holding output `i`'s raw
      text unchanged (no backtick stripping) or that slot's fallback. */
  function FinalResult(result: CrewOutput): (r: map<string, Option<string>>)
    ensures result.tasksOutput.None? ==> r == map[]
    ensures result.tasksOutput.Some? ==> r.Keys == {"city_selection", "city_research", "itinerary", "budget"}
    ensures result.tasksOutput.Some? ==> forall i :: 0 <= i < 4 ==>
      r[SlotKeys[i]] == if |result.tasksOutput.value| > i then result.tasksOutput.value[i].raw
                        else Some(Fallbacks[i])
  {
    if result.tasksOutput.Some? then
      var tasksList := result.tasksOutput.value;
      map[
        "city_selection" := Slot(tasksList, 0),
        "city_research" := Slot(tasksList, 1),
        "itinerary" := Slot(tasksList, 2),
        "budget" := Slot(tasksList, 3)
      ]
    else
      map[]
  }

  /** Outputs past the fourth never reach the result. */
  lemma {:induction false} IgnoresExtraOutputs(tasks: seq<TaskOutput>)
    requires |tasks| > 4
    ensures FinalResult(CrewOutput(Some(tasks))) == FinalResult(CrewOutput(Some(tasks[..4])))
  {
    var a, b := FinalResult(CrewOutput(Some(tasks))), FinalResult(CrewOutput(Some(tasks[..4])));
    forall k | k in a.Keys ensures a[k] == b[k] {
      var i :| 0 <= i < 4 && SlotKeys[i] == k;
      assert tasks[..4][i] == tasks[i];
    }
  }

  /** A result with every slot filled holds exactly the four outputs' texts,
      whatever those outputs are named. */
  lemma FullResult(tasks: seq<TaskOutput>)
    requires |tasks| >= 4
    ensures FinalResult(CrewOutput(Some(tasks))) == map[
      "city_selection" := tasks[0].raw, "city_research" := tasks[1].raw,
      "itinerary" := tasks[2].raw, "budget" := tasks[3].raw]
  {
  }

  /** Unlike `display_trip_results`, a raw text that starts with a backtick
      is kept as it is, where the other dict stores it stripped. */
  lemma KeepsBackticks(tasks: seq<TaskOutput>, j: nat)
    requires j < 4 && j < |tasks|
    requires tasks[j].raw.Some? && tasks[j].raw.value != "" && tasks[j].raw.value[0] == '`'
    requires forall i :: j < i < |tasks| ==> KeyOf(tasks[i].name) != KeyOf(tasks[j].name)
    ensures FinalResult(CrewOutput(Some(tasks)))[SlotKeys[j]] == tasks[j].raw
    ensures OrderedDict.Get(TripResult(CrewOutput(Some(tasks))), KeyOf(tasks[j].name)) != tasks[j].raw
  {
    TripResultLastWins(CrewOutput(Some(tasks)), j);
  }
}
