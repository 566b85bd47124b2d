# AI trip planner: a Dafny model of its own logic

The trip planner is a Streamlit app. Its form collects the travel type, interests, season, duration and budget. A crew of four LLM agents gets four tasks built from string templates: city selection, city research, itinerary creation and budget planning. The crew's task outputs become a dict from snake_case task name to cleaned text. The app shows that dict as a Markdown plan and offers a question-and-answer chat about it.

This project models the program's own logic, with everything the external libraries do taken as input. The model covers:

- **Result normalisation.** `display_trip_results` builds the dict one task at a time. Each key is the lower-cased name with spaces turned into underscores. Each value is the text with its surrounding backticks stripped, or `"No content available."` when there is no text. Python dicts keep insertion order, so the dict is an ordered association list (module `OrderedDict`). The loop is a method proved against a fold specification (module `TripResults`).
- **The legacy result.** The top-level Agents.py fills four fixed slots by position, with no stripping and a fallback message per slot (module `LegacyCrew`).
- **The four task templates and the task list** handed to the crew (module `TripTasks`). The templates and `Pipeline` take the fixed prose as a `Prompts` record, so their properties hold for any prose. `SourcePrompts` holds the source's own text, and `TripCrewTasks` is the pipeline over it.
- **The post-processing of the two tools** (module `Tools`): the search tool's href filter with its fallbacks, and the article tool's url check, length threshold and truncation.
- **The app** (module `App`):
  - the form's inputs dict;
  - the Markdown plan text and section headings;
  - the numbered chat log;
  - a `Session` class for the session state that the "Generate" button and the chat update in place.

The Python string methods the program uses are modelled on ASCII: `lower`, `title`, one-character `replace` and `strip`, `join`, `in` and `str(int)` (modules `Text` and `Numerals`).

## Model

| member | source | states |
|---|---|---|
| TripResults.KeyOf | WorkFlow/Agents.py:212 | the key has the name's length and contains no space |
| TripResults.KeyOfAt | WorkFlow/Agents.py:212 | each key character is the name's character lower-cased, a space becoming `_` |
| TripResults.Cleaned | WorkFlow/Agents.py:213 | missing or empty raw text gives exactly `"No content available."`; otherwise the value sits inside the raw text with only backticks around it, and does not itself start or end with one |
| TripResults.TripResult | WorkFlow/Agents.py:208-219 | the result is empty exactly when `tasks_output` is absent or empty |
| TripResults.DisplayTripResults | WorkFlow/Agents.py:201-219 | the loop's dict equals the fold of the assignments over the outputs |
| TripResults.TripResultShape | WorkFlow/Agents.py:211-214 | no key occurs twice, and there are at most as many keys as task outputs |
| TripResults.TripResultKeys | WorkFlow/Agents.py:211-214 | a key is present exactly when some output's name normalises to it, and no key holds a space |
| TripResults.TripResultLastWins | WorkFlow/Agents.py:211-214 | when later outputs share no key with output j, output j's cleaned text is stored under its key: the last writer wins |
| TripResults.TaskKeys | WorkFlow/Agents.py:211-212 | the keys the loop writes are, one per task output and in task order, the keys of the task names |
| TripResults.TripResultKeyOrder | WorkFlow/Agents.py:211-214 | keys come in the order in which each first appears among the outputs |
| OrderedDict.Keys | WorkFlow/Agents.py:214 | the keys of the pairs, in order |
| OrderedDict.GetKeys | WorkFlow/Agents.py:214 | `get` gives `None` exactly for an absent key; otherwise the value is stored with that key |
| OrderedDict.GetAt | WorkFlow/Agents.py:214 | in a dict without repeated keys, looking up the i-th key gives the i-th value |
| OrderedDict.Insert | WorkFlow/Agents.py:214 | `d[k] = v` keeps the key list when k is present, and appends k otherwise |
| OrderedDict.InsertGet | WorkFlow/Agents.py:214 | after `d[k] = v`, k reads v and every other key reads what it read before |
| OrderedDict.InsertValid | WorkFlow/Agents.py:214 | assignment keeps the keys distinct |
| OrderedDict.Assign | WorkFlow/Agents.py:211-214 | the dict built from `{}` by `d[k] = v` for each pair in turn; its properties are stated by AssignValid, AssignSize, AssignKeys, AssignLastWins and AssignKeyOrder |
| OrderedDict.AssignValid | WorkFlow/Agents.py:211-214 | a sequence of assignments builds a dict without repeated keys |
| OrderedDict.AssignSize | WorkFlow/Agents.py:211-214 | it has at most one key per assignment |
| OrderedDict.AssignKeys | WorkFlow/Agents.py:211-214 | a key is present exactly when some assignment wrote it |
| OrderedDict.AssignLastWins | WorkFlow/Agents.py:211-214 | a key holds the value of its last assignment |
| OrderedDict.AssignKeyOrder | WorkFlow/Agents.py:211-214 | keys keep the order of their first assignment |
| LegacyCrew.FinalResult | Agents.py:183-192 | without `tasks_output`, the empty dict; otherwise exactly the four slot keys, slot i holding output i's raw text unchanged when there are more than i outputs, and that slot's fallback otherwise |
| LegacyCrew.IgnoresExtraOutputs | Agents.py:185-190 | outputs past the fourth do not affect the result |
| LegacyCrew.FullResult | Agents.py:185-190 | with four outputs or more, the slots hold the first four raw texts, whatever their names |
| LegacyCrew.KeepsBackticks | Agents.py:186-189 | a raw text starting with a backtick is stored as is here, and differently by `display_trip_results` |
| TripTasks.CitySelectionTask | WorkFlow/Agents.py:94-111 | named "City Selection" with no context; the description holds a `- Travel Type: `, `- Interests: ` and `- Season: ` line with the field's value, each ending in a newline; the expected output is the given prose |
| TripTasks.CityResearchTask | WorkFlow/Agents.py:112-129 | named "City Research" with no context; the description asks for research on the given city |
| TripTasks.ItineraryCreationTask | WorkFlow/Agents.py:130-146 | named "Itinerary Creation" with no context; the description holds `<duration>-day itinerary for <city>` |
| TripTasks.BudgetPlanningTask | WorkFlow/Agents.py:147-163 | named "Budget Planning"; the description holds `(<budget>)`, and the itinerary task is its only context |
| TripTasks.Pipeline | WorkFlow/Agents.py:184-192 | four tasks, in the order City Selection, City Research, Itinerary Creation, Budget Planning; only the last has a context, the itinerary task; the first carries the travel type, interests and season; research and itinerary get the city-selection task as their city; the budget task names the budget; each has its template's expected output |
| TripTasks.TripCrewTasks | WorkFlow/Agents.py:184-192 | the tasks over the program's own prose: four of them, the budget task with the itinerary task as context, each with the program's expected output, and the form's travel type, interests, season, duration and budget where the templates put them |
| Numerals.NatToString | app.py:141 | `str(n)`: at least one decimal digit, no leading zero |
| Numerals.NatToStringRoundTrip | app.py:141 | reading the digits back gives n |
| Numerals.NatToStringInjective | app.py:141 | distinct numbers render differently |
| Numerals.IntToString | WorkFlow/Agents.py:134 | `str(i)`: non-empty, with a leading `-` exactly for negative i |
| Numerals.IntToStringInjective | WorkFlow/Agents.py:134 | distinct durations render differently |
| Text.Lower | WorkFlow/Agents.py:212 | same length, each character lower-cased |
| Text.ReplaceChar | WorkFlow/Agents.py:212 | same length, each `a` replaced by `b` and nothing else changed |
| Text.Title | app.py:68 | a letter is upper-cased at the start of a run of letters and lower-cased inside one; other characters are kept |
| Text.TitleOfLower | app.py:68 | title-casing ignores the letters' prior case |
| Text.TitleIdempotent | app.py:68 | title-casing twice is title-casing once |
| Text.StripLeading | WorkFlow/Agents.py:213 | removes exactly the leading run of the character |
| Text.StripTrailing | WorkFlow/Agents.py:213 | removes exactly the trailing run of the character |
| Text.Strip | WorkFlow/Agents.py:213 | the result does not start or end with the character, and sits in the input with only that character around it |
| Text.StripFramed | WorkFlow/Agents.py:213 | stripping the two ends leaves a slice framed by the character, clean at both ends |
| Text.StripUnique | WorkFlow/Agents.py:213 | any such framed, clean substring is the strip result |
| Text.Join | app.py:47-50 | `sep.join(parts)`; its properties are stated by JoinPrefix, JoinSuffix, JoinContains, JoinSnoc and JoinEmpty |
| Text.JoinPrefix | app.py:47-50 | the join starts with whatever its first part starts with |
| Text.JoinSuffix | app.py:47-50 | the join ends with whatever its last part ends with |
| Text.JoinContains | app.py:47-50 | every part occurs in the join |
| Text.JoinSnoc | app.py:47-50 | joining one more part appends the separator and that part |
| Text.JoinEmpty | app.py:47-50 | when no part is empty, the join is empty exactly when there are no parts |
| Text.ContainsMiddle | WorkFlow/Agents.py:102-104 | a string contains what was interpolated into it |
| Tools.Hrefs | WorkFlow/Tools.py:26 | no more urls than results, none empty, and none exactly when no result has a truthy href |
| Tools.HrefsAppend | WorkFlow/Tools.py:26 | the filter keeps the results' order |
| Tools.HrefsMember | WorkFlow/Tools.py:26 | a url is listed exactly when some result carries it as non-empty href |
| Tools.DuckDuckGoSearch | WorkFlow/Tools.py:22-31 | never empty; on an exception, the one error line; otherwise the hrefs, or the one "No valid search results found." notice |
| Tools.SearchAtMostEight | WorkFlow/Tools.py:24 | with at most eight results from the library, at most eight urls |
| Tools.Find | WorkFlow/Tools.py:46 | the index found is in range and holds the character |
| Tools.FindAt | WorkFlow/Tools.py:46 | the first occurrence is the one found |
| Tools.NetlocEnd | WorkFlow/Tools.py:46 | the network location ends at a `/`, `?`, `#` or the end |
| Tools.NetlocEndAt | WorkFlow/Tools.py:46 | it ends at the first such character |
| Tools.SplitScheme | WorkFlow/Tools.py:46 | either no scheme and the whole url, or the text before the first `:` (starting with a letter, of scheme characters only) lower-cased, and what follows the colon; the scheme has no upper-case letter |
| Tools.SplitNetloc | WorkFlow/Tools.py:46 | without a leading `//`, an empty network location; otherwise the text after `//` that ends at a delimiter or the end; a returned one has both brackets or neither, and a raise carries "Invalid IPv6 URL" (which inputs raise: SplitNetlocRaises) |
| Tools.SplitSchemeOf | WorkFlow/Tools.py:46 | a valid scheme before the first `:` is split off and lower-cased |
| Tools.SplitNetlocOf | WorkFlow/Tools.py:46 | after `//`, a network location with both brackets or neither runs to the first delimiter and is returned |
| Tools.SplitNetlocRaises | WorkFlow/Tools.py:46 | after `//`, a network location with only one kind of bracket makes the split raise "Invalid IPv6 URL" |
| Tools.UrlParse | WorkFlow/Tools.py:46 | it fails only with "Invalid IPv6 URL"; a parsed network location has both brackets or neither, and the scheme is lower-case |
| Tools.UrlParseRoundTrip | WorkFlow/Tools.py:46-47 | `scheme://netloc/...`, a bracketed host included, parses back to the lower-cased scheme and that netloc |
| Tools.UrlParseShape | WorkFlow/Tools.py:46-47 | a parse with both parts present means the url starts `scheme://netloc` |
| Tools.FetchArticle | WorkFlow/Tools.py:44-65 | a url that fails to parse gives the error line; a missing scheme or netloc gives "Invalid URL format"; a fetch error gives the error line; text over 50 characters gives its prefix of length min(len, 3000); otherwise "Insufficient content" |
| Tools.RejectedUrlIgnoresArticle | WorkFlow/Tools.py:46-48 | a rejected url never consults the article |
| Tools.ArticleBounds | WorkFlow/Tools.py:58-59 | returned text is a prefix of the article, over 50 and at most 3000 characters |
| App.ListRepr | app.py:15 | the interests list renders in brackets |
| App.FormInputs | app.py:34-40 | the inputs dict has every key the templates look up, each holding its form value |
| App.SectionTitle | app.py:68 | the heading of a key keeps its length and holds no underscore |
| App.Section | app.py:48 | each section starts with a `## ` heading and ends with the entry's value |
| App.FullTripText | app.py:47-50 | a non-empty result's text opens with a `## ` heading and ends with the last entry's value |
| App.SectionsSnoc | app.py:47-50 | a result with one more entry has one more section, at the end |
| App.FullTripTextHasSections | app.py:47-50 | every entry of the result has its section in the plan text |
| App.FullTripTextEmpty | app.py:47-50 | the plan text is empty exactly when the result is, which hides the plan and the chat |
| App.FullTripTextSnoc | app.py:47-50 | one more entry appends a blank line and its section |
| App.SubheadingsShowValues | app.py:67-70 | in a dict without repeated keys, each entry is shown under its heading with the value its key maps to |
| App.SectionTitleOfKey | app.py:68 | for a name without `_`, the section heading of its key is the title-cased name |
| App.ChatEntry | app.py:141 | each entry starts `**Q` and ends with the answer |
| App.ChatEntriesSnoc | app.py:140-142 | one more pair in the history gives one more entry, numbered one past the history's length, at the end |
| App.ChatLog | app.py:139-142 | a non-empty log opens with a `**Q` marker and ends with the last answer |
| App.ChatLogHasEntries | app.py:139-142 | every question and answer of the history has its numbered entry in the log |
| App.ChatLogEmpty | app.py:139-142 | the chat log is empty exactly when the history is |
| App.ChatLogAppend | app.py:140-142 | answering one more question appends its entry, numbered after the others, and leaves earlier ones unchanged |
| App.Session.constructor | app.py:21-24 | no result, empty plan text, no chat history |
| App.Session.ShowsPlan | app.py:59-99 | in a consistent session, the plan is shown exactly when a non-empty result is stored |
| App.Session.GenerateTravelPlan | app.py:32-56 | if the crew raises, the state is kept and the failure message returned; otherwise the result and its plan text are stored and the chat history reset to empty; keeps `Valid` |
| App.Session.StorePlan | app.py:44-53 | the result and its plan text are stored and the chat history set to empty; keeps `Valid` |
| App.Session.AskQuestion | app.py:99-136 | with the plan hidden, nothing changes; otherwise the history exists afterwards, and a submitted question whose answer comes back is appended as one pair at the end; a raised answer leaves the history and returns the error line; keeps `Valid` |
| App.Session.ChatDownload | app.py:139-149 | offered exactly when the plan is shown and the history is non-empty; it is the non-empty chat log |

## Left out

- The crewai agents, the LLM, `Crew` and `kickoff` are left out: they are foreign and non-deterministic. The crew's outcome is a function parameter of `GenerateTravelPlan`, and the task outputs are input data.
- The agents' roles, goals, backstories and tool lists (WorkFlow/Agents.py:28-86, Agents.py:19-69) are left out: these are configuration passed to crewai. `Task` does not record its agent.
- WorkFlow/Agentic_Rag.py is not part of this model. `AskQuestion` takes the RAG system as a function of the plan text and the question.
- The search library and the article download and parse are not modelled. They are network I/O, and their results or exceptions are `Outcome` inputs.
- The logging calls are left out.
- Tools.UrlParse models only how `urlsplit` splits off the scheme and network location, plus its unmatched-bracket error. It does not model these parts of `urlparse`:
  - stripping of leading whitespace and control characters;
  - removal of tabs and newlines;
  - port and bracketed-host validation;
  - `_checknetloc`, which raises for a non-ASCII network location whose NFKC form holds one of `/?#@:` (the tool would then answer with its fetch-error line, where the model goes on to fetch);
  - the `;params` split.
- Tools.SearchAtMostEight: the at-most-eight bound is the search library's `max_results`. The model states it only for results that respect that bound.
- Streamlit rendering, widgets and reruns are left out. `Session` holds the three session fields the program's logic reads, and each method is one rerun's effect. The "rag_answer" field is never read, so it is left out too.
- The timestamp and the file names built from it (app.py:25-26, 52, 78, 94, 147) are left out: they come from the clock.
- The docx export (app.py:83-96) is left out: it is a foreign file format.
- LegacyCrew.FinalResult: the legacy dict literal has a fixed key order, and the model returns an unordered `map`. Nothing reads that dict in order, so no behaviour is lost; the WorkFlow result, which app.py iterates, keeps its order (module `OrderedDict`).
- The debug prints (Agents.py:195-198) and the environment loading are left out.
- Case conversion is ASCII only: Python's Unicode `lower` and `title` are not modelled.
- App.ListRepr: Python's `repr` of a string picks double quotes when the string contains an apostrophe. The model always uses single quotes. None of the form's interest options contains one.
- The commented-out older `display_trip_results` (WorkFlow/Agents.py:224-254) is left out: it is not run.
- App.Session.AskQuestion: the chat input's "nothing submitted" (`None`) is represented as the empty string. Both are falsy in the source.
- The top-level Agents.py carries the same four templates as WorkFlow/Agents.py, character for character. Module `TripTasks` models both.
- The two `TripCrew.run` versions differ in their result keys. The legacy version uses `itinerary` and `budget`, where `display_trip_results` gives `itinerary_creation` and `budget_planning`.
- A legacy `tasks_output` attribute that is present but `None` would make `len` raise. The model shows only "attribute absent" and "a list".
