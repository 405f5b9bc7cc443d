# Here and Now: the prompt-deck engine of `newtab.js`

The new-tab page of *Here and Now* shows one short listening prompt at a
time. The prompts come from a Google Sheet exported as CSV. The user can
filter the deck by theme, step forwards and backwards through it, and run a
countdown. This project models the `ListeningPrompts` object of
`newtab.js` without its DOM, network and audio calls, and proves what its
code guarantees:

- `csv.dfy`: the per-line CSV reader `parseCSVLine`. `Csv.ParseLine` is
  the loop as written. `Csv.ScanFrom` is the same scan as a recursive
  specification, and the lemmas about the field count, quote handling and
  round trips are stated about it.
- `feed.dfy`: the parsing half of `loadPrompts`. It covers line splitting
  on `\n` and `\r\n`, dropping blank lines, ignoring the header, turning
  rows into records, the theme set, and the single `Error` placeholder
  that replaces the deck on any failure. The fetch's outcome is an input.
- `deck.dfy`: the theme filter of `filterByTheme`, the circular index
  arithmetic of `nextPrompt` / `prevPrompt`, and the colour index
  `currentIndex % 6` of `updateBackgroundColor`.
- `countdown.dfy`: the duration `parseInt(value, 10) || 30` and the
  `minutes:seconds` text of `updateTimerDisplay`.
- `listening_prompts.dfy`: the class `ListeningPrompts` with the deck
  fields (`prompts`, `filteredPrompts`, `currentIndex`,
  `currentColorIndex`) and the countdown fields (`timer`, `timeRemaining`,
  `isRunning`). Its methods update them as the JavaScript methods do.
  The public operations (`LoadPrompts`, `FilterByTheme`, `NextPrompt`,
  `PrevPrompt`, `HandleTimerButton` and `Tick`) keep the invariant
  `Valid()`. The three timer steps `StartTimer`, `StopTimer` and
  `ResetTimerButton` may break it in between: `stopTimer` alone, for
  instance, leaves a stopped countdown with time left. `Valid()` has two
  parts:
  - The view is the selection of the deck by the chosen theme, the index
    points into it, and the colour follows the index.
  - An interval handle exists exactly while the countdown runs. A stopped
    countdown has no time left unless it was started with a negative
    duration.
- `text.dfy`, `numbers.dfy`, `common.dfy`: the pieces of the JavaScript
  library the code relies on. These are `split`, `join`, `trim` with the
  ECMAScript white-space set, `String(n)`, `parseInt` in radix 10, and
  `Option`/`Result`.

The model follows the code, which does less than a description of the
app might suggest:
- There is no shuffle.
- Columns 0 and 1 are always the theme and the prompt; the header row is
  parsed but never read.
- Lines end only at `\n` or `\r\n`; a lone `\r` stays in its line.
- When the countdown runs out, it stops and requests a cue, but the deck
  does **not** advance.

## Model

| member | source | states |
|---|---|---|
| Csv.ParseLine | newtab.js:146-169 | the loop over the line, with its `i++` skip over a doubled quote, returns exactly the fields of the scan `Csv.Parse` |
| Csv.ScanFrom | newtab.js:150-167 | scanning never loses a finished field and always finishes at least one more, so a line always has at least one field |
| Csv.FieldCount | newtab.js:150-167 | the number of fields is 1 plus the number of commas met outside quotes |
| Csv.ParseQuoteFree | newtab.js:146-169 | on a line without `"` the fields are exactly the pieces of `line.split(',')` |
| Csv.ParseQuoteFreeRoundTrip | newtab.js:146-169 | joining the fields of a line without `"` with `,` gives the line back |
| Csv.ScanQuoted | newtab.js:152-165 | inside quotes a stretch without `"` goes into the current field whole, commas included |
| Csv.ScanPlain | newtab.js:160-165 | outside quotes a stretch without `"` or `,` goes into the current field whole |
| Csv.ScanEscaped | newtab.js:152-159 | inside quotes a doubled `""` gives one `"`, and the closing quote ends the quoted stretch without being kept |
| Csv.ParseEncode | newtab.js:146-169 | a row whose fields are all quoted, with inner quotes doubled, reads back as exactly those fields, whatever commas and quotes they hold |
| Csv.QuotedMiddleField | newtab.js:152-167 | `a,"f",d` (with `f` escaped) reads as the three fields `a`, `f`, `d` |
| Csv.QuotingExamples | newtab.js:152-167 | `a,"b,c",d` reads as `a`, `b,c`, `d`, and `a,"b""c",d` reads as `a`, `b"c`, `d` |
| Text.Split | newtab.js:102 | `split` gives at least one piece and no piece holds the separator |
| Text.SplitCount | newtab.js:102 | `split` gives one more piece than the separator occurs |
| Text.JoinSplit | newtab.js:102 | joining the pieces of a split with the separator gives the text back |
| Text.SplitJoin | newtab.js:102 | splitting a join of pieces without the separator gives the pieces back |
| Text.Trim | newtab.js:102 | `trim` drops exactly the leading and the trailing white space; what remains is the middle of the string and begins and ends with a character that is not white space |
| Text.TrimEmptyIffBlank | newtab.js:102 | `l.trim() !== ''` holds exactly when the line has a character that is not white space |
| Text.TrimIdempotent | newtab.js:114-115 | trimming twice is trimming once |
| Feed.SplitLines | newtab.js:102 | cutting at `\n` and `\r\n` gives at least one line and no line holds `\n` |
| Feed.NonBlankLines | newtab.js:102 | the lines kept are exactly the non-blank lines of the input: each kept line is non-blank and from the input, and every non-blank line of the input is kept |
| Feed.NonBlankLinesAppend | newtab.js:102 | the filter keeps line order: the non-blank lines of two stretches are those of the first, then those of the second |
| Feed.RecordOf | newtab.js:110-120 | a row yields a record exactly when it is non-blank, has at least two columns, and neither column 0 nor column 1 is blank; the record is the two trimmed columns and is well formed |
| Feed.Records | newtab.js:109-121 | every record extracted is well formed: theme and prompt are non-empty and already trimmed |
| Feed.RecordsAppend | newtab.js:109-121 | records keep row order: the rows of two stretches yield the records of the first stretch, then those of the second |
| Feed.RecordsStep | newtab.js:109-121 | one more row adds exactly its record, if any, after the records so far |
| Feed.RecordsNonBlank | newtab.js:102-111 | dropping blank lines changes no record |
| Feed.ThemesOfPush | newtab.js:117-118 | adding a record adds its theme to the theme set |
| Feed.LoadOutcome | newtab.js:102-134 | a failed fetch fails as unavailable; the feed is empty exactly when the text has no non-blank line; a success holds at least one record, each well formed |
| Feed.ThemeOptions | newtab.js:117-141 | the selector offers the theme of every loaded record, only themes of loaded records, and none at all on failure |
| Feed.LoadedDeck | newtab.js:103-138 | the deck after loading is never empty and holds only well-formed records; on any failure it is the single `Error` record |
| Feed.HeaderOnly | newtab.js:103-134 | the first non-blank line never yields a record: a text with exactly one non-blank line, however many blank lines surround it, fails with no prompts |
| Feed.HeaderIgnored | newtab.js:105 | the header is never read: any two non-blank headers give the same outcome |
| Feed.HeaderLine | newtab.js:102-121 | a non-blank header line followed by a body yields exactly the records of the body's lines, or fails if there are none |
| Feed.LoadDocument | newtab.js:102-134 | a header and rows joined with `\n` yield exactly the records of the rows |
| Feed.SplitLinesJoin | newtab.js:102 | lines joined with `\n` split back into the same lines when none ends in `\r` |
| Feed.SplitLinesTerminated | newtab.js:102 | a text whose every line ends in `\n` splits into its lines and one empty last line |
| Feed.LoadTerminated | newtab.js:102-134 | a header and rows, each ended by `\n`, yield exactly the records of the rows |
| Feed.RecordOfPlainRow | newtab.js:110-120 | a row `theme,prompt` without quotes or commas in the columns yields that record |
| Feed.RecordOfQuotedRow | newtab.js:110-120 | a row with both columns quoted yields that record, whatever commas and quotes the columns hold |
| Deck.ThemeFilter | newtab.js:193 | every record of the filtered view has the chosen theme |
| Deck.ThemeFilterSubsequence | newtab.js:193 | the filtered view is a subsequence of the deck: order is kept |
| Deck.ThemeFilterCount | newtab.js:193 | the filter keeps every record of the theme as often as the deck holds it, and no other record |
| Deck.ThemeFilterMember | newtab.js:193 | a record is in the view exactly when it is in the deck and has the theme |
| Deck.ThemeFilterIdempotent | newtab.js:193 | filtering twice by a theme is filtering once |
| Deck.ThemeFilterAppend | newtab.js:193 | the filter of two stretches is the filter of the first, then that of the second |
| Deck.Selection | newtab.js:191-193 | `all` selects the whole deck; any other theme selects only records of that theme; the view is never longer than the deck |
| Deck.SelectionMember | newtab.js:191-193 | every record of a selected view is in the deck and has the selected theme unless the selection is `all` |
| Deck.NextIndex | newtab.js:204 | the next index stays in range, and wraps to 0 exactly after the last record |
| Deck.PrevIndex | newtab.js:219 | the previous index stays in range |
| Deck.PrevNextInverse | newtab.js:199-227 | going back after going forward returns to the same record, and so does the reverse |
| Deck.NextTimesShift | newtab.js:204 | up to `n` steps forward move that many places round the circle |
| Deck.NextFullCircle | newtab.js:204 | `n` steps forward on a view of `n` records return to the start |
| Deck.ColourIndex | newtab.js:250 | the colour index is always one of the six colours |
| Deck.NextChangesColour | newtab.js:247-252 | a step forward changes the colour, except when it wraps from a last index that is a multiple of six |
| Numbers.NatToString | newtab.js:311 | `String(n)` is a non-empty run of digits with no leading zero, one digit exactly below 10 |
| Numbers.NatToStringValue | newtab.js:311 | the digits of `String(n)` denote `n` |
| Numbers.IntToString | newtab.js:311 | `String(z)` is non-empty and starts with `-` exactly when `z` is negative |
| Numbers.ParseInt | newtab.js:273 | `parseInt` of the empty string is `NaN`; a number is read only from a string that is not all white space, and a negative one only after a leading `-` |
| Numbers.ParseDigits | newtab.js:273 | a non-empty run of decimal digits reads as the number it denotes |
| Numbers.ParseNatToString | newtab.js:273 | `parseInt(String(n), 10)` gives `n` back |
| Numbers.ParseIntToString | newtab.js:273 | `parseInt(String(z), 10)` gives `z` back for negative `z` too |
| Countdown.Duration | newtab.js:273 | the duration is never 0, and an unreadable value gives 30 |
| Countdown.DurationOfOption | newtab.js:273 | every positive number written in decimal is taken as is |
| Countdown.DurationOfZero | newtab.js:273 | a zero reading falls back to 30 |
| Countdown.Remainder | newtab.js:310 | JavaScript `%`: the dividend is the quotient rounded toward zero times the divisor plus the remainder, which takes the sign of the dividend and is smaller than the divisor in size |
| Countdown.PadStart | newtab.js:311 | `padStart` reaches the width with fill characters in front, keeping the string at the end |
| Countdown.TimerTextShape | newtab.js:306-312 | for `t >= 0` the text is `String(Math.floor(t / 60))`, a colon and exactly two second digits; the seconds are below 60 and `minutes * 60 + seconds == t` |
| Countdown.SecondsField | newtab.js:310-311 | seconds below 60, padded, are exactly two digits that read back as the seconds |
| Countdown.TimerTextExamples | newtab.js:306-312 | 65 shows `1:05`, 0 shows `0:00`, 300 shows `5:00` |
| Countdown.TimerTextNegative | newtab.js:306-312 | a negative time shows floored minutes and a signed remainder: -5 shows `-1:-5` |
| Listening.ListeningPrompts.constructor | newtab.js:5-13 | a new object has an empty deck and an idle countdown, and satisfies the invariant |
| Listening.ReadFeed | newtab.js:89-143 | what loading decides: the deck is `Feed.LoadedDeck` and the offered themes are those of the records, or none on failure |
| Listening.ReadRow | newtab.js:110-120 | one row gives exactly its record `Feed.RecordOf`, or nothing |
| Listening.Extract | newtab.js:105-121 | the extraction loop builds exactly `Feed.Records` of the lines after the header, and the set of their themes |
| Listening.ListeningPrompts.LoadPrompts | newtab.js:89-143 | after loading, the deck is `Feed.LoadedDeck`, the view is a copy of it, and the invariant holds |
| Listening.ListeningPrompts.Install | newtab.js:133-138 | the deck and the view become the loaded records with `all` selected, keeping the invariant |
| Listening.ListeningPrompts.FilterByTheme | newtab.js:191-197 | the view becomes the deck for `all` and the filtered deck otherwise; the index and colour go to 0; the deck and the countdown are untouched |
| Listening.ListeningPrompts.NextPrompt | newtab.js:199-212 | on an empty view nothing changes; otherwise a cue is requested, the index moves one forward round the circle, and a running countdown stops with no time left |
| Listening.ListeningPrompts.PrevPrompt | newtab.js:214-227 | as `NextPrompt`, moving one back round the circle |
| Listening.ListeningPrompts.CurrentPrompt | newtab.js:239-244 | a record is shown exactly when the view is non-empty; it is the record at `currentIndex` in the view, so it is in the deck and has the selected theme |
| Listening.ListeningPrompts.PromptText | newtab.js:236-245 | for an empty view the card shows the placeholder text; otherwise it shows the prompt of the current record |
| Listening.ListeningPrompts.BackgroundClass | newtab.js:247-252 | the class applied is one of the six, the one `currentIndex % 6` selects |
| Listening.ListeningPrompts.HandleTimerButton | newtab.js:254-267 | an idle countdown starts with the selected duration; a running one stops, the deck moves forward once with one cue when the view is non-empty, and no time is left; the restart branch is reached only after a negative duration |
| Listening.ListeningPrompts.StartTimer | newtab.js:269-288 | called only when no interval is live, so none is overwritten; the remaining time becomes the selected duration, the countdown runs, and a fresh interval handle is held |
| Listening.ListeningPrompts.Tick | newtab.js:279-286 | one tick takes a second off; at 0 or below the countdown stops, its handle is cleared and a cue is requested; the deck is untouched |
| Listening.ListeningPrompts.StopTimer | newtab.js:290-298 | no handle is held and the countdown is stopped |
| Listening.ListeningPrompts.ResetTimerButton | newtab.js:300-304 | no time is left |
| Listening.CountdownExpiry | newtab.js:269-286 | a five-second countdown that ticks five times stops at `0:00` with the deck where it was |
| Listening.ManualInterrupt | newtab.js:208-211 | moving on while the countdown runs leaves it stopped, with no handle and no time left |

## Left out

- The network fetch (newtab.js:92-99): its outcome, the text or a
  failure, is the input `Feed.Response`.
- The DOM work is left out. This covers filling the theme selector
  (newtab.js:124-131, 140-141; the model returns the set of themes and
  does not sort it), `textContent` writes, the colour `classList` swaps,
  the card flip animation, the button labels, the event listeners, the
  keyboard handling and `document.title`.
- Audio (`loadSwitchSound`, `createFallbackBeep`, `playSwitch`,
  newtab.js:30-87) uses browser audio APIs. Each call of `playSwitch` is
  a request counted in the ghost field `cuesRequested`.
- Listening.ListeningPrompts.NextPrompt: the 150 ms `setTimeout` before the
  index moves (newtab.js:203-207) is taken as immediate. Anything that
  happens inside those 150 ms is not modelled.
- Listening.ListeningPrompts.PrevPrompt: the same immediate index update
  (newtab.js:218-222).
- Listening.ListeningPrompts.Tick: the one-second `setInterval` is not
  modelled. Each firing is an explicit call, and only a live interval
  fires.
- Listening.ListeningPrompts.LoadPrompts: it requires `currentIndex == 0`.
  Loading runs once, from `init`, before any navigation.
- Numbers.ParseInt: JavaScript numbers are doubles. The model reads
  digits into an unbounded integer, so it does not cover digit strings
  beyond 2^53.
- Strings are sequences of Unicode characters, not UTF-16 code units.
- `console.error` logging and the `async` sequencing of `init` are left
  out.
