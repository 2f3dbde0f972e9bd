# Lyrics engine of a synchronised-lyrics music player

This project models the logic core of a React music player that shows
time-synchronised lyrics. It has three parts:

- **The LRC parser** `parseLrc` (App.tsx). It splits the text into lines and
  finds the leftmost `[MM:SS.FF]` or `[MM:SS.FFF]` tag of each line. It keeps
  the tag's time and the trimmed text without that tag, drops lines with no
  tag or no text, and sorts the entries stably by time.
- **The lyrics panel** (components/LyricsPanel.tsx). It has a loop that picks
  the active line for the current playback time. It remembers that line in
  its `activeLineIndex` state, and it has an effect that scrolls the line into
  view when the index changes.
- **The player rules** of App.tsx and components/ProgressBar.tsx. These are:
  - next/previous song with wrap-around
  - the play/pause toggle
  - the choice of lyrics when the song changes
  - seeking
  - the `m:ss` time format and the progress percentage

Modules:

- `Types`: the records of types.ts.
- `Text`: the JavaScript string operations used (`split('\n')`, `trim`,
  `parseInt` on digit runs, `${n}`).
- `TimeSort`: a stable sort by time.
- `Lrc`: the parser.
- `LyricsPanel`: the panel.
- `ProgressBar`: the progress bar.
- `Player`: the App component's rules.

Modelling choices:

- **Lyric times** are exact natural numbers of hundredths of a second:
  `MM*6000 + SS*100 + FF`.
  - The source computes `MM*60 + SS + FF/100` in floating point. Rounding
    keeps the order of different hundredths. It does not always keep
    equality: the same hundredths split differently between seconds and
    fraction can give two doubles one unit in the last place apart. For
    example, `[00:00.136]` gives 1.36 but `[00:01.036]` gives
    1.3599999999999999. The model gives both 136 hundredths and keeps them
    in line order. See "## Left out".
  - A three-digit fraction is still divided by 100, as the source does:
    `[01:00.500]` is 65 seconds (`Lrc.ParseWorld`).
- **Playback time** is a `real` number of seconds. A line is reached when
  `time / 100 <= currentTime`.
- **The regular expression** `/\[(\d{2}):(\d{2})\.(\d{2,3})\]/` is modelled
  as `MatchAt`, the match tried at one position, and `FirstMatchFrom`, the
  leftmost position where it matches.
- **`Array.prototype.sort`** has been stable since ES2019. It is modelled by
  an insertion sort (`TimeSort.SortByTime`). `Lrc.AnyStableSortIsTimeline`
  shows that every stable sort gives the same timeline.
- **JavaScript's `%`** truncates toward zero. It is written out as
  `Player.JsRemainder`.
- **Inputs taken as parameters.** The playlist and the bundled LRC text come
  from constants.ts, which is not part of this model. They are parameters.
  Whether an audio element exists (`audioRef.current`) is a boolean
  parameter.

Where the code and its comments suggest different readings, the model
follows the code:

- **The active line on an unsorted timeline.** The comment in the panel's
  loop says "the last line that has a time <= currentTime". The code stops at
  the first line not yet reached, so on an unsorted timeline the result is
  the end of the leading run of reached lines (`LyricsPanel.ActiveIndex`). On
  a sorted timeline the two agree (`LyricsPanel.ActiveIndexSorted`).
- **A repeated tag.** Removing the first tag does not mean the text no longer
  begins with a tag. In `[00:01.00][00:01.00]x` only the first copy is
  removed, so the text starts with the second copy
  (`Lrc.RepeatedTagKept`).

## Model

| member | source | states |
|---|---|---|
| Lrc.MatchAt | App.tsx:15 | a match at a position is a valid tag (two-digit minutes and seconds, two- or three-digit fraction) that fits in the line |
| Lrc.MatchAtWritten | App.tsx:15 | what the pattern matches at a position is that tag: the characters matched are exactly the tag's text |
| Lrc.MatchAtRecognises | App.tsx:15 | conversely, any valid tag written at a position is matched there, so the match is exactly "a tag is written here" |
| Lrc.Remainder | App.tsx:25 | `replace` with a non-global pattern removes the leftmost match: the text is shorter by the tag's length |
| Lrc.RemainderRestores | App.tsx:18-25 | putting the tag's text back where it was removed gives the line again, so exactly the matched characters are removed |
| Lrc.FirstMatchFrom | App.tsx:18 | `exec` finds the leftmost position where the pattern matches; nothing matches before it, and when there is no result nothing matches anywhere |
| Lrc.ParseLine | App.tsx:18-29 | a kept entry has non-empty text with no whitespace at either end |
| Lrc.ParseLineSkips | App.tsx:17-29 | a line is skipped exactly when the pattern matches nowhere or only whitespace remains once the leftmost tag is removed; otherwise the entry has that tag's time `MM*6000+SS*100+FF` |
| Lrc.ParseTaggedLine | App.tsx:18-29 | a line made of a valid tag and text gives the tag's time and the trimmed text, or nothing when the text is all whitespace |
| Lrc.RemainderKeepsLaterTag | App.tsx:25 | removing the leftmost tag shifts a later tag left by the tag's length, intact |
| Lrc.TrimKeepsTag | App.tsx:25 | trimming keeps a tag whole, because it starts with '[' and ends with ']' |
| Lrc.LaterTagKept | App.tsx:15-29 | only the leftmost tag is removed: a later tag of the line is still matched in the entry's text |
| Lrc.RepeatedTagKept | App.tsx:18-25 | a tag written twice loses only its first copy, so the entry's text starts with the tag |
| Lrc.Extracted | App.tsx:17-31 | the entries pushed before sorting: at most one per line, each with non-empty trimmed text |
| Lrc.ExtractedFromLines | App.tsx:17-31 | an entry is pushed exactly when some line parses to it |
| Lrc.ExtractedStep | App.tsx:17-31 | handling one more line appends that line's entry, if it has one |
| Lrc.LrcTimeline | App.tsx:10-34 | the timeline is sorted by time, is a permutation of the entries extracted in line order, has at most one entry per '\n'-separated line, and every text is non-empty and trimmed |
| Lrc.LrcTimelineStable | App.tsx:33 | entries with equal times keep the order of their lines |
| Lrc.AnyStableSortIsTimeline | App.tsx:33 | every stable sort by time of the extracted entries is that timeline |
| Lrc.LineEntry | App.tsx:18-29 | the imperative form of ParseLine: the `forEach` callback, statement by statement, computes the entry ParseLine specifies |
| Lrc.ParseLrc | App.tsx:10-34 | the method (split, push loop, sort) returns LrcTimeline of its input |
| Lrc.OneTaggedLine | App.tsx:10-34 | a one-line text made of a valid tag and some text gives exactly one entry, with the tag's time and the trimmed text |
| Lrc.TagHasNoNewline | App.tsx:11 | a tag contains no '\n', so splitting never cuts one |
| Lrc.Tag.Hundredths | App.tsx:20-24 | the tag's value in hundredths, divided by 100 in exact reals, equals minutes*60 + seconds + fraction/100 seconds |
| Lrc.ParseHello | App.tsx:20-29 | the text `[00:08.52]Hello` gives the single entry (852 hundredths, "Hello") |
| Lrc.ParseWorld | App.tsx:20-24 | the text `[01:00.500]World` gives 6500 hundredths: a three-digit fraction counts as hundredths |
| Lrc.HelloTag | App.tsx:15 | the tag (0, 8, 52) is written `[00:08.52]` |
| Lrc.WorldTag | App.tsx:15 | the tag (1, 0, 500) is written `[01:00.500]` |
| Text.SplitLines | App.tsx:11 | `split('\n')` gives pieces without '\n' that join back into the text |
| Text.SplitLinesCount | App.tsx:11 | there is one more piece than there are newlines |
| Text.IsWhitespace | App.tsx:25 | the characters `trim` removes; the only ASCII ones are tab, LF, VT, FF, CR and space |
| Text.WhitespaceIsTrimmedChars | App.tsx:25 | IsWhitespace holds of exactly ECMAScript's WhiteSpace and LineTerminator characters, listed one by one |
| Text.Trim | App.tsx:25 | `trim` leaves no whitespace at either end, and a non-empty result is the text between a whitespace prefix and a whitespace suffix |
| Text.TrimEmpty | App.tsx:25-27 | a trimmed text is empty exactly when the text is all whitespace |
| Text.TrimKeepsInterior | App.tsx:25 | trimming keeps every part that starts and ends with non-whitespace |
| Text.ParseDecimal | App.tsx:20-22 | `parseInt` of k digits is below 10^k |
| Text.ParsePadded | App.tsx:20-22 | reading back a zero-padded number gives the number |
| Text.PadParsed | App.tsx:20-22 | zero-padding a parsed digit run to its width gives the run back |
| Text.DecimalString | components/ProgressBar.tsx:16 | `${n}` is a non-empty digit run with no leading zero that reads back as n |
| Text.DecimalStringUnique | components/ProgressBar.tsx:16 | a digit run without a leading zero is the rendering of its own value |
| TimeSort.InsertByTime | App.tsx:33 | inserting adds exactly the new entry |
| TimeSort.InsertKeepsSorted | App.tsx:33 | inserting into a sorted timeline keeps it sorted |
| TimeSort.InsertKeepsOrder | App.tsx:33 | the inserted entry comes after the entries with the same time |
| TimeSort.SortByTime | App.tsx:33 | the sort gives a sorted permutation of its input |
| TimeSort.SortByTimeStable | App.tsx:33 | the sort keeps the input order of the entries of each time |
| TimeSort.StableSortIsUnique | App.tsx:33 | two sorted sequences that agree on the order within every time are equal |
| LyricsPanel.ActiveIndex | components/LyricsPanel.tsx:19-26 | the active index lies in [-1, length-1], every line up to it is reached, and the next line, if any, is not |
| LyricsPanel.ActiveIndexUnique | components/LyricsPanel.tsx:19-26 | those two properties single out the index |
| LyricsPanel.ActiveIndexSorted | components/LyricsPanel.tsx:18-26 | on a sorted non-empty timeline the index is -1 iff playback is before the first line, and a line is reached iff it is at or before the index, so the index is the greatest reached line |
| LyricsPanel.ActiveIndexMonotone | components/LyricsPanel.tsx:18-26 | the active index never moves back as time moves forward |
| LyricsPanel.SeekToLine | components/LyricsPanel.tsx:66 | after clicking line k on a sorted timeline, the active line is k or a later line with the same time, and the line after it starts later |
| LyricsPanel.ActiveBetween | components/LyricsPanel.tsx:18-26 | between the start of line k and the start of line k+1, line k is active |
| LyricsPanel.ResolveActiveIndex | components/LyricsPanel.tsx:19-26 | the loop with its early `break` returns ActiveIndex |
| LyricsPanel.Rendered | components/LyricsPanel.tsx:33-47 | the container of lines exists exactly when the panel is not loading and has no error message; an empty message is falsy and does not hide the lines |
| LyricsPanel.Panel.constructor | components/LyricsPanel.tsx:12 | the remembered index starts at 0 |
| LyricsPanel.Panel.Tick | components/LyricsPanel.tsx:14-39 | an empty timeline leaves the index unchanged; otherwise it becomes the active index; a scroll happens exactly when the index changes to a line (>= 0) and the lines are on screen (not loading, no non-empty error) |
| LyricsPanel.Panel.Mount | components/LyricsPanel.tsx:12-47 | on the first render the panel scrolls to child 0, then to the active line if that is later, and only when the lines are on screen |
| ProgressBar.FormatTime | components/ProgressBar.tsx:12-17 | NaN gives "0:00"; otherwise the minutes, a colon and the seconds within the minute in two digits |
| ProgressBar.ReadFormattedTime | components/ProgressBar.tsx:14-16 | reading a formatted time back as minutes*60+seconds gives the whole seconds |
| ProgressBar.FormatReadTime | components/ProgressBar.tsx:14-16 | every canonical `m:ss` text is the format of the value it reads as |
| ProgressBar.ZeroPadded | components/ProgressBar.tsx:16 | a '0' comes before the seconds exactly when they are below 10 |
| ProgressBar.LongDuration | components/ProgressBar.tsx:14-16 | minutes are not capped: 4503 seconds are "75:03" |
| ProgressBar.Percent | components/ProgressBar.tsx:19 | 0 for a 0, NaN or infinite duration; otherwise percent*duration == current*100, and within [0, 100] while current lies in the track |
| Player.FindIndex | App.tsx:115 | `findIndex` gives the first position with the id, or -1 when no song has it |
| Player.JsRemainder | App.tsx:116 | JavaScript's `%` keeps the sign of the dividend, leaves values within one period of 0 alone and subtracts one period from values in [n, 2n) |
| Player.NextSong | App.tsx:114-118 | the next song is a song of the playlist; after the last song, or when the current song is not found, it is the first; otherwise it is the song right after the current one |
| Player.PrevSong | App.tsx:120-124 | the previous song is a song of the playlist; before the first song it is the last; when the current song is not found it is the one before the last (the only song when there is one); otherwise it is the song right before the current one |
| Player.NextIndex | App.tsx:114-118 | the next index is in [0, n) and wraps from the last song to the first; a song that is not found moves to the first |
| Player.PrevIndex | App.tsx:120-124 | the previous index is in [0, n) and wraps from the first song to the last; a song that is not found moves to n-2 (0 with one song) |
| Player.NextPrevInverse | App.tsx:114-124 | on a found index, previous undoes next and next undoes previous |
| Player.PrevAfterNext | App.tsx:114-124 | with distinct ids, previous undoes next and next undoes previous on any song of the playlist |
| Player.PlayPause | App.tsx:102-112 | without audio nothing changes; playing becomes paused, and paused or loading becomes playing |
| Player.PlayPauseTwice | App.tsx:102-112 | two presses return to the start, except that loading ends up paused |
| Player.LyricsFor | App.tsx:69-81 | the demo song's lyrics are its parsed text; any other song gets one placeholder line at time 0; never loading, no error |
| Player.LoadLyrics | App.tsx:69-81 | the effect's branch (which runs the parser) computes LyricsFor |
| Player.LyricsForSorted | App.tsx:69-81 | the chosen lyrics are always sorted by time |
| Player.PlaceholderActive | App.tsx:73-80 | the placeholder line is active from time 0 on, and nothing is active before it |
| Player.App.constructor | App.tsx:38-43 | the first render: the first song, paused, at time 0, with no lyrics |
| Player.App.SongChanged | App.tsx:51-82 | a song change shows loading, resets the time to 0 and chooses the lyrics of the song |
| Player.App.TogglePlay | App.tsx:102-112 | the button applies PlayPause and changes nothing else |
| Player.App.Next | App.tsx:114-118 | the next button selects the song after the current one |
| Player.App.Prev | App.tsx:120-124 | the previous button selects the song before the current one |
| Player.App.Seek | App.tsx:126-131 | seeking sets the time only when there is an audio element |

## Left out

- services/geminiService.ts is not part of this model. It makes network calls to a generative API and parses the JSON it returns.
- The audio element itself is left out: `src`, `load`, the `play()` promise that moves loading to playing or paused, and the `onTimeUpdate`, `onLoadedMetadata` and `onEnded` handlers (App.tsx:55-66, 85-99). These are asynchronous browser media events. The end of a track calls `handleNext`, which `Player.App.Next` models.
- `Song.duration` is left out: it is declared at types.ts:7 and never read. The `duration` state is left out too. It only feeds the progress bar, whose `Percent` takes the duration as a parameter.
- JSX rendering, styling, `scrollIntoView` and the DOM child lookup are left out. The components Controls, CoverArt and Playlist are also left out. Only the condition under which the panel scrolls is modelled.
- The progress bar's click-to-seek geometry (components/ProgressBar.tsx:27-31) is left out. It is floating-point layout arithmetic. Seeking to any time is `Player.App.Seek`.
- ProgressBar.FormatTime: covers NaN and non-negative finite times only, reduced to whole seconds. Negative and infinite times are left out.
- ProgressBar.FormatTime: the whole-seconds model is faithful only below 2^53 seconds. Above that, `Math.floor(time / 60)` floors a rounded floating-point quotient, which the model does not reproduce.
- Text.DecimalString: models `${n}` as a plain digit run. JavaScript switches to exponent notation from 10^21 (1e21 prints as "1e+21"), which is not modelled.
- LyricsPanel.Panel.Tick: the time is a real number, so a NaN playback time (where every comparison is false) is not covered. Lyric times are exact hundredths rather than doubles.
- LyricsPanel.Panel.Tick: when the effects re-run is not modelled. React re-runs them when `currentTime` or the identity of `lines` changes. Each call of Tick is one such run.
- Player.App.constructor: requires a non-empty playlist. The source reads `PLAYLIST[0]` and never changes the playlist, so an empty playlist has no current song.
- Lrc.LrcTimeline: keeps line order among entries with equal hundredths. The source sorts by floating-point seconds. The same hundredths written with a different split between seconds and fraction can give times one unit in the last place apart, and then the source can put those lines out of line order. For example, `[00:00.136]a` and `[00:01.036]b` get 1.36 and 1.3599999999999999, so the source gives b before a, while the model keeps a before b. Entries whose hundredths differ are ordered the same way in both.
- Lrc.LrcTimelineStable: the source keeps line order only among entries whose floating-point times are equal. Two equal hundredths can have different floating-point times, as in the LrcTimeline line above.
- Lrc.AnyStableSortIsTimeline: the source's sort is stable by floating-point time, not by hundredths. Its result can fail this lemma's premise, so it can differ from LrcTimeline, as in the LrcTimeline line above.
- Lrc.ParseLrc: returns LrcTimeline, so it has the same gap in how equal hundredths are ordered, as in the LrcTimeline line above.
- Strings are sequences of code points; JavaScript's UTF-16 code units are not modelled. Every character the parser inspects is in the Basic Multilingual Plane, so `trim` and the pattern see the same characters either way.
