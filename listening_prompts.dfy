/** The `ListeningPrompts` object of newtab.js with its DOM, audio and
    network calls taken out: the deck (`prompts`, `filteredPrompts`,
    `currentIndex`) and the countdown (`isRunning`, `timeRemaining`,
    `timer`), and the methods that update them. */
module Listening {
  import opened Common
  import opened Text
  import Csv
  import opened Feed
  import opened Deck
  import opened Countdown
  import Numbers

  /** What the prompt card shows when the filtered view is empty. */
  const NoPromptsText := "No prompts available for this theme."

  class ListeningPrompts {
    var prompts: seq<Prompt>
    var filteredPrompts: seq<Prompt>
    var currentIndex: nat
    /** The handle of the live `setInterval`, if any. */
    var timer: Option<nat>
    var timeRemaining: int
    var isRunning: bool
    var currentColorIndex: nat
    /** The handle the browser gives the next interval it creates. */
    var nextIntervalId: nat

    /** The theme the current view was selected with ("all" after loading). */
    ghost var selectedTheme: string
    /** The duration the countdown was last started with (0 before any start). */
    ghost var startedFrom: int
    /** How many transition cues (`playSwitch` calls) have been requested. */
    ghost var cuesRequested: nat

    /** The view is the selection of the deck by the chosen theme, the index
        points into it (0 when it is empty), and the colour follows the index. */
    ghost predicate DeckValid()
      reads this`prompts, this`filteredPrompts, this`selectedTheme, this`currentIndex, this`currentColorIndex
    {
      && filteredPrompts == Selection(prompts, selectedTheme)
      && (if filteredPrompts == [] then currentIndex == 0 else currentIndex < |filteredPrompts|)
      && currentColorIndex == ColourIndex(currentIndex)
    }

    /** An interval is live exactly while the countdown runs; a stopped
        countdown has no time left; and a countdown started with a positive
        duration stays positive while it runs and stops at exactly 0, so a
        stopped countdown with time other than 0 can only follow a start with
        a negative duration. */
    ghost predicate TimerValid()
      reads this`timer, this`isRunning, this`timeRemaining, this`startedFrom
    {
      && (timer.Some? <==> isRunning)
      && (!isRunning ==> timeRemaining <= 0)
      && (isRunning ==> startedFrom != 0)
      && (isRunning && startedFrom > 0 ==> timeRemaining > 0)
      && (!isRunning && timeRemaining != 0 ==> startedFrom < 0)
    }

    ghost predicate Valid()
      reads this
    {
      DeckValid() && TimerValid()
    }

    /** The field initialisers of the constructor (newtab.js:5-13). */
    constructor ()
      ensures Valid()
      ensures prompts == [] && filteredPrompts == [] && currentIndex == 0
      ensures timer == None && timeRemaining == 0 && !isRunning
    {
      prompts := [];
      filteredPrompts := [];
      currentIndex := 0;
      timer := None;
      timeRemaining := 0;
      isRunning := false;
      currentColorIndex := 0;
      nextIntervalId := 1;
      selectedTheme := AllThemes;
      startedFrom := 0;
      cuesRequested := 0;
    }

    /** `loadPrompts` once the fetch has answered: the deck becomes the
        records of the rows after the header, or the one placeholder record
        on any failure, and the view is a copy of it. Returns the themes the
        selector offers besides "all". */
    method LoadPrompts(response: Response) returns (themeOptions: set<string>)
      requires Valid() && currentIndex == 0
      modifies this`prompts, this`filteredPrompts, this`selectedTheme
      ensures Valid()
      ensures prompts == LoadedDeck(response)
      ensures filteredPrompts == prompts && selectedTheme == AllThemes
      ensures themeOptions == ThemeOptions(response)
    {
      var deck;
      deck, themeOptions := ReadFeed(response);
      Install(deck);
    }

    /** The deck becomes `deck` and the view a copy of it, as after the
        theme selector is refilled with "all" selected. */
    method Install(deck: seq<Prompt>)
      requires Valid() && currentIndex == 0
      modifies this`prompts, this`filteredPrompts, this`selectedTheme
      ensures Valid()
      ensures prompts == deck && filteredPrompts == deck && selectedTheme == AllThemes
    {
      prompts := deck;
      filteredPrompts := prompts;
      selectedTheme := AllThemes;
    }

    /** `filterByTheme`: the view becomes the whole deck for "all" and the
        records of the theme otherwise, possibly none; the index and the
        colour go back to 0. */
    method FilterByTheme(theme: string)
      requires Valid()
      modifies this`filteredPrompts, this`currentIndex, this`currentColorIndex, this`selectedTheme
      ensures Valid()
      ensures filteredPrompts == Selection(prompts, theme) && selectedTheme == theme
      ensures currentIndex == 0 && currentColorIndex == 0
    {
      if theme == AllThemes {
        filteredPrompts := prompts;
      } else {
        filteredPrompts := ThemeFilter(prompts, theme);
      }
      selectedTheme := theme;
      currentIndex := 0;
      currentColorIndex := ColourIndex(currentIndex);
    }

    /** `nextPrompt`: nothing at all happens on an empty view; otherwise a
        cue is requested, the index moves one forward round the circle, and
        a running countdown is stopped with no time left. */
    method NextPrompt()
      requires DeckValid() && (timer.Some? <==> isRunning)
      modifies this`currentIndex, this`currentColorIndex, this`cuesRequested
      modifies this`timer, this`isRunning, this`timeRemaining
      ensures DeckValid() && (timer.Some? <==> isRunning)
      ensures old(TimerValid()) ==> TimerValid()
      ensures filteredPrompts == [] ==> unchanged(this)
      ensures filteredPrompts != [] ==>
        && currentIndex == NextIndex(old(currentIndex), |filteredPrompts|)
        && cuesRequested == old(cuesRequested) + 1
        && if old(isRunning) then !isRunning && timer == None && timeRemaining == 0
           else !isRunning && timer == old(timer) && timeRemaining == old(timeRemaining)
    {
      if filteredPrompts == [] {
        return;
      }
      cuesRequested := cuesRequested + 1;
      currentIndex := NextIndex(currentIndex, |filteredPrompts|);
      currentColorIndex := ColourIndex(currentIndex);
      if isRunning {
        StopTimer();
        ResetTimerButton();
      }
    }

    /** `prevPrompt`: as `nextPrompt`, moving one back round the circle. */
    method PrevPrompt()
      requires DeckValid() && (timer.Some? <==> isRunning)
      modifies this`currentIndex, this`currentColorIndex, this`cuesRequested
      modifies this`timer, this`isRunning, this`timeRemaining
      ensures DeckValid() && (timer.Some? <==> isRunning)
      ensures old(TimerValid()) ==> TimerValid()
      ensures filteredPrompts == [] ==> unchanged(this)
      ensures filteredPrompts != [] ==>
        && currentIndex == PrevIndex(old(currentIndex), |filteredPrompts|)
        && cuesRequested == old(cuesRequested) + 1
        && if old(isRunning) then !isRunning && timer == None && timeRemaining == 0
           else !isRunning && timer == old(timer) && timeRemaining == old(timeRemaining)
    {
      if filteredPrompts == [] {
        return;
      }
      cuesRequested := cuesRequested + 1;
      currentIndex := PrevIndex(currentIndex, |filteredPrompts|);
      currentColorIndex := ColourIndex(currentIndex);
      if isRunning {
        StopTimer();
        ResetTimerButton();
      }
    }

    /** The record `displayCurrentPrompt` shows, or `None` when the card
        shows `NoPromptsText`: always a record of the deck, and of the
        selected theme unless "all" is selected. */
    function CurrentPrompt(): (p: Option<Prompt>)
      reads this
      requires DeckValid()
      ensures p.Some? <==> filteredPrompts != []
      ensures p.Some? ==> p.value == filteredPrompts[currentIndex]
      ensures p.Some? ==> p.value in prompts
      ensures p.Some? && selectedTheme != AllThemes ==> p.value.theme == selectedTheme
    {
      if filteredPrompts == [] then None
      else
        SelectionMember(prompts, selectedTheme, currentIndex);
        Some(filteredPrompts[currentIndex])
    }

    /** The text `displayCurrentPrompt` writes on the card. */
    function PromptText(): (text: string)
      reads this
      requires DeckValid()
      ensures filteredPrompts == [] ==> text == NoPromptsText
      ensures filteredPrompts != [] ==> text == CurrentPrompt().value.prompt
    {
      match CurrentPrompt()
      case None => NoPromptsText
      case Some(p) => p.prompt
    }

    /** The background class `updateBackgroundColor` applies: the one the
        current index selects, cycling through the six. */
    function BackgroundClass(): (c: string)
      reads this
      requires DeckValid()
      ensures c in BackgroundColours
      ensures c == BackgroundColours[currentIndex % 6]
    {
      BackgroundColours[currentColorIndex]
    }

    /** `handleTimerButton`: an idle countdown starts; a running one stops,
        the deck moves forward once and no time is left; a stopped one with
        time other than 0, which only a negative duration leaves behind,
        starts again. */
    method HandleTimerButton(selected: string)
      requires Valid()
      modifies this`timeRemaining, this`isRunning, this`timer, this`nextIntervalId, this`startedFrom
      modifies this`currentIndex, this`currentColorIndex, this`cuesRequested
      ensures Valid()
      ensures old(!isRunning) ==>
        && isRunning && timeRemaining == Duration(selected)
        && currentIndex == old(currentIndex) && cuesRequested == old(cuesRequested)
      ensures old(!isRunning && timeRemaining != 0) ==> old(startedFrom) < 0
      ensures old(isRunning) ==>
        && !isRunning && timer == None && timeRemaining == 0
        && currentIndex == (if filteredPrompts == [] then old(currentIndex)
                            else NextIndex(old(currentIndex), |filteredPrompts|))
        && cuesRequested == old(cuesRequested) + (if filteredPrompts == [] then 0 else 1)
    {
      if !isRunning && timeRemaining == 0 {
        StartTimer(selected);
      } else if isRunning {
        StopTimer();
        NextPrompt();
        ResetTimerButton();
      } else {
        ResetTimerButton();
        StartTimer(selected);
      }
    }

    /** `startTimer`: the remaining time becomes the selected duration
        (`parseInt(value, 10) || 30`), the countdown runs, and a fresh
        interval is created. It is only called with no interval live, so
        no ticking interval is ever overwritten. */
    method StartTimer(selected: string)
      requires timer == None
      modifies this`timeRemaining, this`isRunning, this`timer, this`nextIntervalId, this`startedFrom
      ensures timeRemaining == Duration(selected) && startedFrom == Duration(selected)
      ensures isRunning && timer == Some(old(nextIntervalId))
      ensures nextIntervalId == old(nextIntervalId) + 1
    {
      timeRemaining := Duration(selected);
      startedFrom := timeRemaining;
      isRunning := true;
      timer := Some(nextIntervalId);
      nextIntervalId := nextIntervalId + 1;
    }

    /** One firing of the interval `startTimer` creates (newtab.js:279-286);
        only a live interval fires. The remaining time drops by one; at 0 or
        below the countdown stops and a cue is requested. The deck is not
        touched: expiry does not advance it. */
    method Tick()
      requires Valid() && isRunning
      modifies this`timeRemaining, this`timer, this`isRunning, this`cuesRequested
      ensures Valid()
      ensures timeRemaining == old(timeRemaining) - 1
      ensures isRunning <==> timeRemaining > 0
      ensures !isRunning ==> timer == None && cuesRequested == old(cuesRequested) + 1
      ensures isRunning ==> timer == old(timer) && cuesRequested == old(cuesRequested)
    {
      timeRemaining := timeRemaining - 1;
      if timeRemaining <= 0 {
        StopTimer();
        cuesRequested := cuesRequested + 1;
      }
    }

    /** `stopTimer`: the interval is cleared, so no tick fires afterwards. */
    method StopTimer()
      modifies this`timer, this`isRunning
      ensures timer == None && !isRunning
    {
      if timer.Some? {
        timer := None;
      }
      isRunning := false;
    }

    /** `resetTimerButton`: no time is left. */
    method ResetTimerButton()
      modifies this`timeRemaining
      ensures timeRemaining == 0
    {
      timeRemaining := 0;
    }
  }

  /** The decisions of `loadPrompts` (newtab.js:89-143) once the fetch has
      answered: the deck, which is the placeholder record on any failure,
      and the themes the selector offers besides "all". */
  method ReadFeed(response: Response) returns (deck: seq<Prompt>, options: set<string>)
    ensures deck == LoadedDeck(response)
    ensures options == ThemeOptions(response)
  {
    match response {
      case FetchFailed =>
        deck := [ErrorPrompt];
        options := {};
      case Fetched(text) =>
        var lines := NonBlankLines(SplitLines(text));
        if |lines| == 0 {
          assert LoadOutcome(response) == Failure(EmptyFeed);
          deck := [ErrorPrompt];
          options := {};
        } else {
          var themes;
          deck, themes := Extract(lines);
          if |deck| == 0 {
            assert LoadOutcome(response) == Failure(NoPrompts);
            deck := [ErrorPrompt];
            options := {};
          } else {
            assert LoadOutcome(response) == Success(deck);
            options := themes;
          }
        }
    }
  }

  /** The extraction loop of `loadPrompts` (newtab.js:102-121) over the
      non-blank lines: the first is parsed as the header and not used; each
      later one adds its record, if it yields one, and that record's theme. */
  method Extract(lines: seq<string>) returns (prompts: seq<Prompt>, themes: set<string>)
    requires |lines| >= 1
    ensures prompts == Records(lines[1..])
    ensures themes == ThemesOf(prompts)
  {
    var headers := Csv.ParseLine(lines[0]);
    prompts := [];
    themes := {};
    var i := 1;
    while i < |lines|
      invariant 1 <= i <= |lines|
      invariant prompts == Records(lines[1..i])
      invariant themes == ThemesOf(prompts)
    {
      var row := lines[i];
      RecordsStep(lines, i);
      var record := ReadRow(row);
      if record.Some? {
        ThemesOfPush(prompts, record.value);
        prompts := prompts + [record.value];
        themes := themes + {record.value.theme};
      }
      i := i + 1;
    }
    assert lines[1..i] == lines[1..];
  }

  /** The body of the extraction loop for one row (newtab.js:110-120): a
      blank row, a row of fewer than two columns, or a row with a blank
      theme or prompt gives nothing; any other row gives its two trimmed
      columns. */
  method ReadRow(row: string) returns (record: Option<Prompt>)
    ensures record == RecordOf(row)
  {
    record := None;
    if Trim(row) != [] {
      var cols := Csv.ParseLine(row);
      if |cols| >= 2 {
        var theme := Trim(cols[0]);
        var prompt := Trim(cols[1]);
        if theme != [] && prompt != [] {
          record := Some(Prompt(theme, prompt));
        }
      }
    }
  }

  /** A five-second countdown that ticks five times stops at `0:00` and
      leaves the deck where it was. */
  method CountdownExpiry(response: Response) returns (running: bool, remaining: int, index: nat, display: string)
    ensures !running && remaining == 0 && index == 0 && display == "0:00"
  {
    var app := new ListeningPrompts();
    var options := app.LoadPrompts(response);
    assert Numbers.NatToString(5) == "5";
    DurationOfOption(5);
    app.HandleTimerButton("5");
    var k := 0;
    while k < 5
      invariant 0 <= k <= 5
      invariant app.Valid() && app.currentIndex == 0
      invariant app.timeRemaining == 5 - k && (app.isRunning <==> k < 5)
    {
      app.Tick();
      k := k + 1;
    }
    TimerTextExamples();
    running, remaining, index, display := app.isRunning, app.timeRemaining, app.currentIndex, TimerText(app.timeRemaining);
  }

  /** Moving to the next prompt while the countdown runs stops it: nothing
      is left running, no interval is live and no time is left. */
  method ManualInterrupt(response: Response) returns (running: bool, live: bool, remaining: int)
    ensures !running && !live && remaining == 0
  {
    var app := new ListeningPrompts();
    var options := app.LoadPrompts(response);
    app.HandleTimerButton("60");
    app.NextPrompt();
    running, live, remaining := app.isRunning, app.timer.Some?, app.timeRemaining;
  }
}
