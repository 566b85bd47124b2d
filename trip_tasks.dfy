/** The four `TripTasks` templates and the task list `TripCrew.run` hands to
    the crew. WorkFlow/Agents.py and Agents.py carry the same templates and the
    same wiring, character for character, so both are modelled here once. */
module TripTasks {
  import opened Text
  import opened Numerals

  /** A value of the inputs dict, as an f-string renders it. */
  datatype Field =
    | Words(text: string)     // a `str` field: travel_type, season, budget
    | Number(count: int)      // an `int` field: duration
    | Listing(repr: string)   // a list field (interests), as Python's `repr` of it

  function Render(f: Field): string
  {
    match f
    case Words(t) => t
    case Number(n) => IntToString(n)
    case Listing(r) => r
  }

  /** The inputs dict the templates look fields up in. */
  type Inputs = map<string, Field>

  /** A crewai `Task` as far as this program fills it in; the agent it is bound
      to is not modelled. */
  datatype Task = Task(name: string, description: string, expectedOutput: string, context: seq<Task>)

  const CitySelectionName := "City Selection"
  const CityResearchName := "City Research"
  const ItineraryCreationName := "Itinerary Creation"
  const BudgetPlanningName := "Budget Planning"

  const CitySelectionExpected := "Bulleted list of cities with a short rationale for each recommendation."
  const CityResearchExpected := "Organized sections with clear headings and bullet points covering each topic."
  const ItineraryExpected := "A clear, day-by-day table format itinerary with time slots, activities, transport details, and meal suggestions."
  const BudgetExpected := "An itemized budget table with detailed cost breakdown and total cost analysis."

  const CitySelectionSteps :=
    "Analyze the user's preferences to recommend the most suitable travel destinations by following these steps:\n"
    + "1. Identify cities that are ideal to visit in the given season.\n"
    + "2. Cross-reference those cities with the specified travel type and user interests.\n"
    + "3. Prioritize cities offering a good balance of cultural, recreational, and unique experiences.\n"

  const CityResearchSteps :=
    " the following format:\n"
    + "1. List top attractions and must-visit landmarks.\n"
    + "2. Highlight popular local dishes and cuisine specialties.\n"
    + "3. Summarize important cultural norms, etiquette, and local customs.\n"
    + "4. Recommend safe, well-located areas for accommodation.\n"
    + "5. Provide transportation tips including local travel hacks.\n"
    + "6. Include hidden gems or lesser-known experiences that locals enjoy.\n\n"
    + "Output: Organize findings into clear, titled sections with bullet points for each topic."

  const ItinerarySteps :=
    ", ensuring it is well-paced and enjoyable.\n"
    + "1. Break each day into time slots.\n"
    + "2. Sequence attractions and activities logically to minimize travel time.\n"
    + "3. Include transportation options and estimated travel durations between locations.\n"
    + "4. Suggest meal options (breakfast, lunch, dinner) with location recommendations.\n"
    + "5. Ensure a good mix of sightseeing, leisure, dining, and hidden experiences.\n\n"
    + "Output: A structured, day-by-day table including time slots, activity descriptions, transport notes, and meal suggestions."

  const BudgetSteps :=
    ", create a comprehensive budget plan covering:\n"
    + "1. Accommodation costs per night and total for the trip.\n"
    + "2. Transportation expenses (local and intercity as needed).\n"
    + "3. Attraction and activity fees based on itinerary items.\n"
    + "4. Meal budget estimates for breakfast, lunch, and dinner per day.\n"
    + "5. A recommended emergency fund allowance.\n"
    + "6. Optional extras or tips if budget allows.\n\n"
    + "Output: Present an itemized budget table with category-wise cost estimates and a total cost analysis."

  /** The fixed prose of the four templates: the instructions around the
      interpolated fields, and the expected outputs. */
  datatype Prompts = Prompts(
    selectionSteps: string, selectionExpected: string,
    researchFormat: string, researchExpected: string,
    itineraryGuide: string, itineraryExpected: string,
    budgetGuide: string, budgetExpected: string)

  /** The prose WorkFlow/Agents.py and Agents.py use. */
  const SourcePrompts := Prompts(
    CitySelectionSteps, CitySelectionExpected,
    CityResearchSteps, CityResearchExpected,
    ItinerarySteps, ItineraryExpected,
    BudgetSteps, BudgetExpected)

  /** `city_selection_task`: a missing key is a `KeyError`, so all three keys
      are required. The description carries each field on its own line. */
  function CitySelectionTask(p: Prompts, inputs: Inputs): (t: Task)
    requires "travel_type" in inputs && "interests" in inputs && "season" in inputs
    ensures t.name == CitySelectionName && t.context == []
    ensures Contains(t.description, "- Travel Type: " + Render(inputs["travel_type"]) + "\n")
    ensures Contains(t.description, "- Interests: " + Render(inputs["interests"]) + "\n")
    ensures Contains(t.description, "- Season: " + Render(inputs["season"]) + "\n\n")
    ensures t.expectedOutput == p.selectionExpected
  {
    var travelLine := "- Travel Type: " + Render(inputs["travel_type"]) + "\n";
    var interestsLine := "- Interests: " + Render(inputs["interests"]) + "\n";
    var seasonLine := "- Season: " + Render(inputs["season"]) + "\n\n";
    var description := p.selectionSteps + travelLine + interestsLine + seasonLine;
    ContainsMiddle(p.selectionSteps, travelLine, interestsLine + seasonLine);
    ContainsMiddle(p.selectionSteps + travelLine, interestsLine, seasonLine);
    ContainsMiddle(p.selectionSteps + travelLine + interestsLine, seasonLine, "");
    assert p.selectionSteps + travelLine + (interestsLine + seasonLine) == description;
    assert description + "" == description;
    Task(CitySelectionName, description, p.selectionExpected, [])
  }

  /** `city_research_task`: `city` is whatever text the city argument renders to. */
  function CityResearchTask(p: Prompts, city: string): (t: Task)
    ensures t.name == CityResearchName && t.context == []
    ensures Contains(t.description, "research on " + city + " using")
    ensures t.expectedOutput == p.researchExpected
  {
    var phrase := "research on " + city + " using";
    var description := "Conduct in-depth, structured " + phrase + p.researchFormat;
    ContainsMiddle("Conduct in-depth, structured ", phrase, p.researchFormat);
    Task(CityResearchName, description, p.researchExpected, [])
  }

  /** `itinerary_creation_task`: the description asks for a `<duration>-day
      itinerary for <city>`. */
  function ItineraryCreationTask(p: Prompts, city: string, inputs: Inputs): (t: Task)
    requires "duration" in inputs
    ensures t.name == ItineraryCreationName && t.context == []
    ensures Contains(t.description, Render(inputs["duration"]) + "-day itinerary for " + city)
    ensures t.expectedOutput == p.itineraryExpected
  {
    var phrase := Render(inputs["duration"]) + "-day itinerary for " + city;
    var description := "Plan a detailed " + phrase + p.itineraryGuide;
    ContainsMiddle("Plan a detailed ", phrase, p.itineraryGuide);
    Task(ItineraryCreationName, description, p.itineraryExpected, [])
  }

  /** `budget_planning_task`: names the budget category in parentheses and
      takes the itinerary task as its only context. */
  function BudgetPlanningTask(p: Prompts, inputs: Inputs, itinerary: Task): (t: Task)
    requires "budget" in inputs
    ensures t.name == BudgetPlanningName && t.context == [itinerary]
    ensures Contains(t.description, "(" + Render(inputs["budget"]) + ")")
    ensures t.expectedOutput == p.budgetExpected
  {
    var head := "Based on the provided itinerary and selected budget category ";
    var category := "(" + Render(inputs["budget"]) + ")";
    var description := head + category + p.budgetGuide;
    ContainsMiddle(head, category, p.budgetGuide);
    Task(BudgetPlanningName, description, p.budgetExpected, [itinerary])
  }

  /** The keys the four templates look up. */
  predicate HasTemplateKeys(inputs: Inputs)
  {
    && "travel_type" in inputs && "interests" in inputs && "season" in inputs
    && "duration" in inputs && "budget" in inputs
  }

  /** The task list of `TripCrew.run`, for any prose. The research and
      itinerary templates get the city-selection task object itself as their
      city; `show` is the text that object renders to inside an f-string. */
  function Pipeline(p: Prompts, inputs: Inputs, show: Task -> string): (tasks: seq<Task>)
    requires HasTemplateKeys(inputs)
    ensures |tasks| == 4
    ensures tasks[0].name == CitySelectionName && tasks[1].name == CityResearchName
    ensures tasks[2].name == ItineraryCreationName && tasks[3].name == BudgetPlanningName
    ensures tasks[0].context == [] && tasks[1].context == [] && tasks[2].context == []
    ensures tasks[3].context == [tasks[2]]
    ensures Contains(tasks[0].description, "- Travel Type: " + Render(inputs["travel_type"]) + "\n")
    ensures Contains(tasks[0].description, "- Interests: " + Render(inputs["interests"]) + "\n")
    ensures Contains(tasks[0].description, "- Season: " + Render(inputs["season"]) + "\n\n")
    ensures Contains(tasks[1].description, "research on " + show(tasks[0]) + " using")
    ensures Contains(tasks[2].description, Render(inputs["duration"]) + "-day itinerary for " + show(tasks[0]))
    ensures Contains(tasks[3].description, "(" + Render(inputs["budget"]) + ")")
    ensures tasks[0].expectedOutput == p.selectionExpected && tasks[1].expectedOutput == p.researchExpected
    ensures tasks[2].expectedOutput == p.itineraryExpected && tasks[3].expectedOutput == p.budgetExpected
  {
    var selection := CitySelectionTask(p, inputs);
    var research := CityResearchTask(p, show(selection));
    var itinerary := ItineraryCreationTask(p, show(selection), inputs);
    var budget := BudgetPlanningTask(p, inputs, itinerary);
    [selection, research, itinerary, budget]
  }

  /** The tasks `TripCrew.run` hands to the crew: the pipeline over the
      source's own prose, so each carries the program's expected output and
      the form's fields where its template puts them. */
  function TripCrewTasks(inputs: Inputs, show: Task -> string): (tasks: seq<Task>)
    requires HasTemplateKeys(inputs)
    ensures |tasks| == 4 && tasks[3].context == [tasks[2]]
    ensures tasks[0].expectedOutput == CitySelectionExpected && tasks[1].expectedOutput == CityResearchExpected
    ensures tasks[2].expectedOutput == ItineraryExpected && tasks[3].expectedOutput == BudgetExpected
    ensures Contains(tasks[0].description, "- Travel Type: " + Render(inputs["travel_type"]) + "\n")
    ensures Contains(tasks[0].description, "- Interests: " + Render(inputs["interests"]) + "\n")
    ensures Contains(tasks[0].description, "- Season: " + Render(inputs["season"]) + "\n\n")
    ensures Contains(tasks[2].description, Render(inputs["duration"]) + "-day itinerary for " + show(tasks[0]))
    ensures Contains(tasks[3].description, "(" + Render(inputs["budget"]) + ")")
  {
    Pipeline(SourcePrompts, inputs, show)
  }
}
