/** The Streamlit front end (app.py): the inputs form, the plan text built from
    the trip result, and the session state a rerun of the script updates. */
module App {
  import opened Wrappers
  import opened Text
  import opened Numerals
  import opened OrderedDict
  import opened TripResults
  import opened TripTasks

  /** Python's `repr` of a list of strings such as the interests selection:
      each item in single quotes, separated by `, `, inside brackets. */
  function ListRepr(items: seq<string>): (r: string)
    ensures |r| >= 2 && r[0] == '[' && r[|r| - 1] == ']'
  {
    "[" + Join(", ", seq(|items|, i requires 0 <= i < |items| => "'" + items[i] + "'")) + "]"
  }

  /** The inputs dict the form builds: every key the templates use is present,
      and each holds the form value it was given. */
  function FormInputs(travelType: string, interests: seq<string>, season: string,
                      duration: int, budget: string): (inputs: Inputs)
    ensures HasTemplateKeys(inputs)
    ensures inputs["duration"] == Number(duration) && Render(inputs["duration"]) == IntToString(duration)
    ensures inputs["budget"] == Words(budget) && inputs["season"] == Words(season)
    ensures inputs["travel_type"] == Words(travelType) && inputs["interests"] == Listing(ListRepr(interests))
  {
    map["travel_type" := Words(travelType), "interests" := Listing(ListRepr(interests)),
        "season" := Words(season), "duration" := Number(duration), "budget" := Words(budget)]
  }

  /** The heading a result key is shown under: underscores back to spaces,
      then title case. It keeps the key's length and holds no underscore. */
  function SectionTitle(key: string): (title: string)
    ensures |title| == |key| && '_' !in title
  {
    var spaced := ReplaceChar(key, '_', ' ');
    var title := Title(spaced);
    assert forall i :: 0 <= i < |title| ==> title[i] != '_' by {
      forall i | 0 <= i < |title| ensures title[i] != '_' {
        assert spaced[i] != '_';
        assert title[i] == if i > 0 && IsLetter(spaced[i - 1]) then LowerChar(spaced[i]) else UpperChar(spaced[i]);
        assert LowerChar(spaced[i]) != '_' && UpperChar(spaced[i]) != '_';
      }
    }
    title
  }

  /** One section of the plan text: a level-two heading, a blank line, the value. */
  function Section(key: string, value: string): (s: string)
    ensures |s| > 3 && s[..3] == "## "
    ensures |value| <= |s| && s[|s| - |value|..] == value
  {
    "## " + SectionTitle(key) + "\n\n" + value
  }

  /** The sections of a trip result, in the dict's order. */
  function Sections(d: Dict<string>): (ss: seq<string>)
    ensures |ss| == |d| && forall i :: 0 <= i < |d| ==> ss[i] == Section(d[i].0, d[i].1)
  {
    seq(|d|, i requires 0 <= i < |d| => Section(d[i].0, d[i].1))
  }

  /** `full_trip_text`: the sections joined by blank lines. A non-empty
      result's text opens with the first heading and closes with the last value. */
  function FullTripText(d: Dict<string>): (text: string)
    ensures d != [] ==> |text| > 3 && text[..3] == "## "
    ensures d != [] ==> var v := d[|d| - 1].1; |v| <= |text| && text[|text| - |v|..] == v
  {
    PlanTextEnds(d);
    Join("\n\n", Sections(d))
  }

  /** The proof of `FullTripText`'s contract. */
  lemma PlanTextEnds(d: Dict<string>)
    ensures d != [] ==> var text := Join("\n\n", Sections(d));
      && |text| > 3 && text[..3] == "## "
      && var v := d[|d| - 1].1; |v| <= |text| && text[|text| - |v|..] == v
  {
    if d != [] {
      var ss := Sections(d);
      JoinPrefix("\n\n", ss, "## ");
      var n := |d|;
      assert ss[n - 1] == Section(d[n - 1].0, d[n - 1].1);
      JoinSuffix("\n\n", ss, Section(d[n - 1].0, d[n - 1].1), d[n - 1].1);
    }
  }

  /** The sections of a result with one more entry: one more section at the end. */
  lemma SectionsSnoc(d: Dict<string>, k: string, v: string)
    ensures Sections(d + [(k, v)]) == Sections(d) + [Section(k, v)]
  {
  }

  /** Every entry of the result has its section in the plan text. */
  lemma FullTripTextHasSections(d: Dict<string>, i: nat)
    requires i < |d|
    ensures Contains(FullTripText(d), Section(d[i].0, d[i].1))
  {
    JoinContains("\n\n", Sections(d), i);
  }

  /** The plan text is empty exactly when the trip result is, so an empty
      result hides the plan and the chat. */
  lemma FullTripTextEmpty(d: Dict<string>)
    ensures FullTripText(d) == "" <==> d == []
  {
    JoinEmpty("\n\n", Sections(d));
  }

  /** A result with one more key gets one more section at the end. */
  lemma FullTripTextSnoc(d: Dict<string>, k: string, v: string)
    requires d != []
    ensures FullTripText(d + [(k, v)]) == FullTripText(d) + "\n\n" + Section(k, v)
  {
    SectionsSnoc(d, k, v);
    JoinSnoc("\n\n", Sections(d), Section(k, v));
  }

  /** The headings shown for each entry of the trip result, beside its content. */
  function Subheadings(d: Dict<string>): (hs: seq<(string, string)>)
    ensures |hs| == |d|
    ensures forall i :: 0 <= i < |d| ==> hs[i].0 == "\U{1F4CC} " + SectionTitle(d[i].0) && hs[i].1 == d[i].1
  {
    seq(|d|, i requires 0 <= i < |d| => ("\U{1F4CC} " + SectionTitle(d[i].0), d[i].1))
  }

  /** Each entry is shown with the value its key maps to in the result. */
  lemma SubheadingsShowValues(d: Dict<string>)
    requires Valid(d)
    ensures forall i :: 0 <= i < |d| ==> Get(d, d[i].0) == Some(Subheadings(d)[i].1)
  {
    forall i | 0 <= i < |d| ensures Get(d, d[i].0) == Some(Subheadings(d)[i].1) {
      GetAt(d, i);
    }
  }

  /** For a task name without underscores, the heading of its key is the
      title-cased name: lower-casing and the space/underscore swap undo each other. */
  lemma SectionTitleOfKey(name: string)
    requires '_' !in name
    ensures SectionTitle(KeyOf(name)) == Title(name)
  {
    var k := KeyOf(name);
    var back := ReplaceChar(k, '_', ' ');
    forall i | 0 <= i < |name| ensures back[i] == Lower(name)[i] {
      KeyOfAt(name, i);
      assert name[i] != '_';
    }
    assert back == Lower(name);
    TitleOfLower(name);
  }

  /** One question and answer of the downloadable chat log, numbered from 1. */
  function ChatEntry(n: nat, question: string, answer: string): (e: string)
    ensures |e| > 3 && e[..3] == "**Q"
    ensures |answer| <= |e| && e[|e| - |answer|..] == answer
  {
    "**Q" + NatToString(n) + ":** " + question + "\n**A" + NatToString(n) + ":** " + answer
  }

  /** The entries of a chat history, the `i`-th numbered `i + 1`. */
  function ChatEntries(history: seq<(string, string)>): (es: seq<string>)
    ensures |es| == |history|
    ensures forall i :: 0 <= i < |history| ==> es[i] == ChatEntry(i + 1, history[i].0, history[i].1)
  {
    seq(|history|, i requires 0 <= i < |history| => ChatEntry(i + 1, history[i].0, history[i].1))
  }

  /** The downloadable chat log: the entries joined by blank lines. A
      non-empty log opens with a question marker and closes with the last answer. */
  function ChatLog(history: seq<(string, string)>): (log: string)
    ensures history != [] ==> |log| > 3 && log[..3] == "**Q"
    ensures history != [] ==> var a := history[|history| - 1].1;
      |a| <= |log| && log[|log| - |a|..] == a
  {
    if history == [] then Join("\n\n", ChatEntries(history))
    else
      ChatLogStart(history);
      ChatLogEnd(history);
      Join("\n\n", ChatEntries(history))
  }

  /** The proof of `ChatLog`'s contract, for the first entry ... */
  lemma ChatLogStart(history: seq<(string, string)>)
    requires history != []
    ensures var log := Join("\n\n", ChatEntries(history)); |log| > 3 && log[..3] == "**Q"
  {
    JoinPrefix("\n\n", ChatEntries(history), "**Q");
  }

  /** ... and for the last. */
  lemma ChatLogEnd(history: seq<(string, string)>)
    requires history != []
    ensures var log := Join("\n\n", ChatEntries(history)); var a := history[|history| - 1].1;
      |a| <= |log| && log[|log| - |a|..] == a
  {
    var es := ChatEntries(history);
    var n := |history|;
    var lastEntry := ChatEntry(n, history[n - 1].0, history[n - 1].1);
    assert es[n - 1] == lastEntry;
    JoinSuffix("\n\n", es, lastEntry, history[n - 1].1);
  }

  /** The entries of a history with one more pair: one more entry, numbered next. */
  lemma ChatEntriesSnoc(history: seq<(string, string)>, question: string, answer: string)
    ensures ChatEntries(history + [(question, answer)]) ==
      ChatEntries(history) + [ChatEntry(|history| + 1, question, answer)]
  {
  }

  /** Every question and answer of the history has its entry in the chat log. */
  lemma ChatLogHasEntries(history: seq<(string, string)>, i: nat)
    requires i < |history|
    ensures Contains(ChatLog(history), ChatEntry(i + 1, history[i].0, history[i].1))
  {
    JoinContains("\n\n", ChatEntries(history), i);
  }

  /** The chat log is empty exactly when the history is. */
  lemma ChatLogEmpty(history: seq<(string, string)>)
    ensures ChatLog(history) == "" <==> history == []
  {
    JoinEmpty("\n\n", ChatEntries(history));
  }

  /** Answering one more question appends its entry, numbered after the others. */
  lemma ChatLogAppend(history: seq<(string, string)>, question: string, answer: string)
    requires history != []
    ensures ChatLog(history + [(question, answer)]) ==
      ChatLog(history) + "\n\n" + ChatEntry(|history| + 1, question, answer)
  {
    ChatEntriesSnoc(history, question, answer);
    JoinSnoc("\n\n", ChatEntries(history), ChatEntry(|history| + 1, question, answer));
  }

  const PlannedMessage := "\U{2705} Trip planned successfully!"
  const PlanFailedPrefix := "\U{274C} Trip planning failed: "
  const AnswerFailedPrefix := "\U{274C} Could not get an answer: "

  /** `st.session_state`: the trip result, the plan text and the chat history
      (`None` until a plan is generated or the chat first shows). */
  class Session {
    var tripResult: Option<Dict<string>>
    var fullTripText: string
    var chatHistory: Option<seq<(string, string)>>

    /** The plan text always belongs to the stored result, and a stored result
        comes with a chat history. */
    ghost predicate Valid()
      reads this
    {
      && (tripResult.None? ==> fullTripText == "")
      && (tripResult.Some? ==> fullTripText == FullTripText(tripResult.value) && chatHistory.Some?)
    }

    /** The first run of the script: no result, no text, no history. */
    constructor ()
      ensures Valid()
      ensures tripResult == None && fullTripText == "" && chatHistory == None
    {
      tripResult := None;
      fullTripText := "";
      chatHistory := None;
    }

    /** The plan, its downloads and the chat are shown when the plan text is
        non-empty: for a valid session, when a non-empty result is stored. */
    predicate ShowsPlan()
      reads this
      ensures Valid() ==> (ShowsPlan() <==> tripResult.Some? && tripResult.value != [])
    {
      FullTripTextEmpty(if tripResult.Some? then tripResult.value else []);
      fullTripText != ""
    }

    /** The "Generate Travel Plan" button. `run` is `TripCrew(inputs).run()`;
        if it raises, the state is kept and the error shown; otherwise the
        result and its text are stored and the chat starts over. */
    method GenerateTravelPlan(travelType: string, interests: seq<string>, season: string,
                              duration: int, budget: string,
                              run: Inputs -> Outcome<CrewOutput>) returns (message: string)
      requires Valid()
      modifies this
      ensures Valid()
      ensures run(FormInputs(travelType, interests, season, duration, budget)).Raised? ==>
        && message == PlanFailedPrefix + run(FormInputs(travelType, interests, season, duration, budget)).message
        && tripResult == old(tripResult) && fullTripText == old(fullTripText)
        && chatHistory == old(chatHistory)
      ensures run(FormInputs(travelType, interests, season, duration, budget)).Returned? ==>
        var d := TripResult(run(FormInputs(travelType, interests, season, duration, budget)).value);
        && message == PlannedMessage
        && tripResult == Some(d) && fullTripText == FullTripText(d) && chatHistory == Some([])
    {
      var inputs := FormInputs(travelType, interests, season, duration, budget);
      var result := run(inputs);
      if result.Raised? {
        message := PlanFailedPrefix + result.message;
        return;
      }
      var tripResultDict := DisplayTripResults(result.value);
      StorePlan(tripResultDict);
      message := PlannedMessage;
    }

    /** A new plan is stored with its text, and the chat starts over. */
    method StorePlan(tripResultDict: Dict<string>)
      modifies this
      ensures Valid()
      ensures tripResult == Some(tripResultDict) && fullTripText == FullTripText(tripResultDict)
      ensures chatHistory == Some([])
    {
      tripResult := Some(tripResultDict);
      fullTripText := FullTripText(tripResultDict);
      chatHistory := Some([]);
    }

    /** The chat block of one rerun, with `query` the text submitted ("" when
        nothing was) and `answer` the RAG system, called with the plan text and
        the question. Nothing happens while the plan is hidden; otherwise the
        history is created if missing and a successful answer appended. */
    method AskQuestion(query: string, answer: (string, string) -> Outcome<string>)
      returns (error: Option<string>)
      requires Valid()
      modifies this
      ensures Valid()
      ensures tripResult == old(tripResult) && fullTripText == old(fullTripText)
      ensures !old(ShowsPlan()) ==> chatHistory == old(chatHistory) && error == None
      ensures old(ShowsPlan()) && (query == "" || answer(fullTripText, query).Returned?) ==> error == None
      ensures old(ShowsPlan()) && query != "" && answer(fullTripText, query).Raised? ==>
        error == Some(AnswerFailedPrefix + answer(fullTripText, query).message)
      ensures old(ShowsPlan()) ==>
        var before := old(chatHistory).GetOr([]);
        chatHistory == Some(if query != "" && answer(fullTripText, query).Returned?
                            then before + [(query, answer(fullTripText, query).value)]
                            else before)
    {
      error := None;
      if fullTripText == "" {
        return;
      }
      // the history is created here when no plan generation created it
      var history := chatHistory.GetOr([]);
      chatHistory := Some(history);
      if query != "" {
        var response := answer(fullTripText, query);
        if response.Raised? {
          error := Some(AnswerFailedPrefix + response.message);
        } else {
          chatHistory := Some(history + [(query, response.value)]);
        }
      }
    }

    /** The chat download offered with a shown plan and a non-empty history. */
    function ChatDownload(): (log: Option<string>)
      reads this
      ensures log.Some? <==> fullTripText != "" && chatHistory.Some? && chatHistory.value != []
      ensures log.Some? ==> log.value == ChatLog(chatHistory.value) && log.value != ""
    {
      if fullTripText != "" && chatHistory.Some? && chatHistory.value != [] then
        ChatLogEmpty(chatHistory.value);
        Some(ChatLog(chatHistory.value))
      else None
    }
  }
}
