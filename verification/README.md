# SeaPlayer core, modelled in Dafny

This project models the non-UI core of SeaPlayer, a terminal music player
built on Textual and Rich. It covers:

- **Tracks** (`seaplayer/track.py`): the `Playbacker` registry that maps
  UUIDs to `Track`s. It keeps a selection, state flags and the volume that
  all tracks share. A `Track` registers itself when it is built.
- **Playlist** (`seaplayer/objects/playlist.py`): playlist items with three
  labels and a partial `update_labels`. The playlist view's cursor moves with
  `select`, `select_next` (wrapping to the top) and `select_previous` (wrapping
  to the bottom). Each move posts a `Selected` message for the highlighted
  item. `create_item` appends an item.
- **Locking** (`seaplayer/others/locker.py`): a set of lock names. Acquiring
  a held name and releasing a free one are both harmless.
- **Timers** (`seaplayer/others/timer.py`): a start/end stopwatch and a
  segment stopwatch whose duration sums its segments.
- **Functions** (`seaplayer/functions.py`): `iter_dazzle` (chaining),
  `exist_by_type` (short-circuit search) and `formattrs`
  (`k=repr(v)` joining).
- **Logging** (`seaplayer/objects/log.py`):
  - the level enumeration and its name and colour tables;
  - the three `str.format` templates a line is built from;
  - the threshold test, the optional text stream, and the `exception`,
    `group` and `ln` entries;
  - the markup check the widget and the stream both apply to a line. Called
    at OFF, the default templates give the level text `[]  UNKNOWN  [/]`,
    whose `[/]` closes nothing, so Rich rejects the line.
- **Ripix** (`seaplayer/others/ripix.py`), the image-to-segments renderers:
  - colour extraction and the null style;
  - half-cell rendering (two pixel rows per text row, a lower half block with
    the lower pixel as foreground) and full-cell rendering (two spaces per
    pixel);
  - the row loop shared by both renderers;
  - the resize each renderer computes;
  - `_segments_from_image` and `from_ascii`.
- **PlaybackModes** (`seaplayer/_types.py`, `seaplayer/seaplayer.py`): the
  three-way PLAY, REPLAY_SOUND, REPLAY_LIST cycle of the mode button, and the
  language key of its label.

The modules and what they hold:

- Everything is immutable datatypes and pure functions. Loops become methods
  whose results are tied to independent reference functions.
- The clock (`time.perf_counter`, `datetime.now`) is a parameter.
- The randomness of `uuid4` is an id parameter, and `Tracks.FreshId` is an
  oracle that picks an unused one.
- Pillow's conversion and resize are represented by the image they produce.
- Rich's markup parser is a function parameter. It returns the plain text
  (`Text.from_markup(line).plain`) of a line that parses, and nothing where
  Rich raises `MarkupError`.
- `Style.parse` keeps its definition text.
- `Common` holds the shared `Option`, decimal printing (with its round trip)
  and `Repeat`.

## Model

| member | source | states |
|---|---|---|
| Tracks.OrDefault | seaplayer/track.py:30-31 | a missing or zero argument gives the default; any other value is kept; a non-zero default never yields zero |
| Tracks.NewPlaybacker | seaplayer/track.py:17-33 | the registry is the given map or empty; nothing is selected; no state flag is set; not running; volume defaults to 1.0 and piece size to 0.1 when missing or zero |
| Tracks.Count | seaplayer/track.py:37-39 | the count is the number of registered ids, and it is zero exactly for an empty registry |
| Tracks.Add | seaplayer/track.py:66-68 | the returned id maps to the track; keys gain exactly that id; other entries are unchanged; count grows by one for a fresh id and stays put for a reused one; nothing but the registry changes |
| Tracks.Remove | seaplayer/track.py:70-73 | keys lose exactly the id; surviving entries are unchanged; count drops by one if the id was present; a missing id changes nothing; the selection is left alone |
| Tracks.NewTrack | seaplayer/track.py:78-85 | the track keeps its source; its uuid is the key `add` returned, and the registry maps that key to it |
| Tracks.FreshId | seaplayer/track.py:67 | the id oracle: returns an id not in use (the smallest such) whenever fewer than 2^128 are used |
| Tracks.CreateTrack | seaplayer/track.py:78-85 | building a track with a fresh id registers it under a new key; count grows by one; every earlier entry survives |
| Tracks.AddAllCount | seaplayer/track.py:66-68 | n registrations under distinct fresh ids grow the count by exactly n; every id becomes a key and old keys stay |
| Tracks.RemoveThenAdd | seaplayer/track.py:66-73 | removing a registered track and adding it back under its id restores the playbacker |
| Tracks.AddThenRemove | seaplayer/track.py:66-73 | adding under a fresh id and removing that id restores the playbacker |
| Tracks.Selected | seaplayer/track.py:116-120 | `selected` holds iff some track is selected and the selected uuid is the track's; without a selection it is false |
| Tracks.SelectionStable | seaplayer/track.py:116-120 | at most one uuid reports `selected`; adding or removing a track, or setting the volume, never changes which tracks do |
| Tracks.NothingSelectedInitially | seaplayer/track.py:27-28 | no track of a fresh playbacker is selected |
| Tracks.GetVolume | seaplayer/track.py:144-145 | reads the playbacker's shared volume, whichever track asks |
| Tracks.SetVolume | seaplayer/track.py:147-148 | sets the shared volume and nothing else: registry, selection, state, piece size and the running flag are kept |
| Tracks.VolumeShared | seaplayer/track.py:144-148 | a volume set through one track is read back through any other track |
| Playlist.Highlighted | seaplayer/objects/playlist.py:68 | the highlighted child exists iff the cursor is in range, and it is the node at the cursor |
| Playlist.MoveTo | seaplayer/objects/playlist.py:79-83 | stores the index; posts `Selected` exactly when the index names a node, carrying that node |
| Playlist.NewItem | seaplayer/objects/playlist.py:29-48 | the item carries the uuid and the three labels, empty by default |
| Playlist.UpdateLabels | seaplayer/objects/playlist.py:50-60 | each given label replaces its old one; each missing label is kept; the uuid is kept |
| Playlist.UpdateLabelsCompose | seaplayer/objects/playlist.py:50-60 | two updates equal one update with merged arguments, the later winning |
| Playlist.UpdateLabelsIdentityAndIdempotent | seaplayer/objects/playlist.py:50-60 | an update with no arguments is the identity; repeating an update changes nothing more |
| Playlist.Select | seaplayer/objects/playlist.py:65-71 | an in-range index becomes the cursor and posts its node; any other index changes nothing and posts nothing |
| Playlist.SelectNext | seaplayer/objects/playlist.py:73-83 | no cursor: no effect; otherwise the cursor advances, wrapping to 0 past the end (i.e. (i+1) mod n from in range); posts iff the new cursor is in range |
| Playlist.SelectPrevious | seaplayer/objects/playlist.py:85-95 | no cursor: no effect; otherwise the cursor goes back, wrapping to n-1 below 0 (i.e. (i-1) mod n from in range); posts iff the new cursor is in range |
| Playlist.MovesStayInRange | seaplayer/objects/playlist.py:73-95 | from an in-range cursor both moves stay in range and post a message |
| Playlist.NextPreviousInverse | seaplayer/objects/playlist.py:73-95 | from an in-range cursor, `select_previous` undoes `select_next` and vice versa |
| Playlist.SelectThenStep | seaplayer/objects/playlist.py:65-95 | after selecting an in-range index, `select_next` is selecting (i+1) mod n and `select_previous` is selecting (i-1) mod n, message included; selecting the same index again changes nothing |
| Playlist.NextTimesIndex | seaplayer/objects/playlist.py:73-83 | k calls of `select_next` move the cursor to (i+k) mod n and keep the nodes |
| Playlist.NextFullCycle | seaplayer/objects/playlist.py:73-83 | n calls of `select_next` on n nodes return to the starting view |
| Playlist.CreateItem | seaplayer/objects/playlist.py:97-103 | appends exactly one new item with the given uuid and labels; earlier nodes and the cursor are kept |
| Playlist.CreateThenSelect | seaplayer/objects/playlist.py:65-103 | selecting the next free index after `create_item` highlights and posts the new item; every earlier index still posts the item it posted before |
| Locking.NewLocker | seaplayer/others/locker.py:6-7 | a new locker holds no name |
| Locking.Locked | seaplayer/others/locker.py:18-19 | a name is locked exactly when it is in the set of held names |
| Locking.Acquire | seaplayer/others/locker.py:9-10 | the name becomes locked; other names keep their state; acquiring a held name changes nothing |
| Locking.Release | seaplayer/others/locker.py:12-16 | the name becomes free; other names keep their state; releasing a free name changes nothing |
| Locking.NothingLockedInitially | seaplayer/others/locker.py:18-19 | `locked` is false for every name of a new locker |
| Locking.Idempotent | seaplayer/others/locker.py:9-16 | acquiring twice is acquiring once; releasing twice is releasing once |
| Locking.RoundTrips | seaplayer/others/locker.py:9-16 | acquire-then-release of a free name, and release-then-acquire of a held name, restore the locker |
| Locking.DistinctNamesCommute | seaplayer/others/locker.py:9-16 | operations on different names commute: acquire with release, acquire with acquire, and release with release |
| Timers.NewTimer | seaplayer/others/timer.py:8-10 | both readings start at zero, so the duration is zero |
| Timers.Duration | seaplayer/others/timer.py:39-41 | the duration is what takes the start reading to the end reading; it is non-negative iff the start is not after the end |
| Timers.Start | seaplayer/others/timer.py:43-44 | records the start reading only |
| Timers.End | seaplayer/others/timer.py:46-47 | records the end reading only |
| Timers.TimerEnter | seaplayer/others/timer.py:12-14 | entering records the start reading only |
| Timers.TimerExit | seaplayer/others/timer.py:16-17 | exiting records the end reading only |
| Timers.WithBlockMeasures | seaplayer/others/timer.py:39-41 | a `with` block timed from t0 to t1 has duration t1 - t0, whatever the timer held before; non-negative for a monotone clock |
| Timers.NewSegmentTimer | seaplayer/others/timer.py:52-54 | no segments and nothing open |
| Timers.SegmentDuration | seaplayer/others/timer.py:56-61 | the front-to-back loop computes the sum of end - start over all segments |
| Timers.Acquire | seaplayer/others/timer.py:85-88 | when idle, opens a segment (now, 0.0) at the end and records its index; when open, changes nothing; keeps the open-index-is-last invariant |
| Timers.Release | seaplayer/others/timer.py:90-94 | closes the open segment at now, leaves every other segment alone and becomes idle; when idle, changes nothing |
| Timers.SegmentEnter | seaplayer/others/timer.py:78-80 | entering is `acquire` |
| Timers.SegmentExit | seaplayer/others/timer.py:82-83 | exiting is `release` |
| Timers.TotalAppend | seaplayer/others/timer.py:58-61 | appending a segment adds its length to the duration |
| Timers.AcquireReleaseAdds | seaplayer/others/timer.py:85-94 | one idle-to-idle segment from t0 to t1 adds exactly t1 - t0 to the duration |
| Timers.OpenSegmentCounted | seaplayer/others/timer.py:56-61 | while a segment is open, the duration counts 0.0 - start for it |
| Functions.IterDazzle | seaplayer/functions.py:21-25 | yields the concatenation of the iterables, in order |
| Functions.ConcatAppend | seaplayer/functions.py:21-25 | chaining two groups of iterables is chaining each group and joining the results |
| Functions.ConcatSnoc | seaplayer/functions.py:23-25 | one more iterable appends its items at the end |
| Functions.ExistByType | seaplayer/functions.py:27-31 | true iff some item passes the instance test; the search stops just after the first match and reads everything when there is none |
| Functions.Attributes | seaplayer/functions.py:37-41 | one text per argument: `repr(v)` for positional ones, then `key=repr(v)` for keyword ones, each in call order |
| Functions.Formattrs | seaplayer/functions.py:35-42 | the attribute texts joined by ", "; no arguments give "" and one argument gives its text alone |
| Functions.JoinSnoc | seaplayer/functions.py:42 | joining one more part adds the separator and the part |
| Logging.LevelName | seaplayer/objects/log.py:85 | the name lookup gives "UNKNOWN" exactly for OFF, and the member's identifier otherwise |
| Logging.LevelColor | seaplayer/objects/log.py:85 | the colour lookup gives "" exactly for OFF |
| Logging.LevelTables | seaplayer/objects/log.py:24-42 | both tables list every member but OFF; names are the identifiers; no colour is empty |
| Logging.LevelOrder | seaplayer/objects/log.py:12-20 | declaration order is value order (INFO below DEBUG), and values are distinct |
| Logging.ThresholdExtremes | seaplayer/objects/log.py:84 | every level passes NOTSET; only OFF passes OFF |
| Logging.FormatValue | seaplayer/objects/log.py:44-45 | formatting with fill, alignment and width keeps a text that is long enough; otherwise the result has exactly the width, the value at the alignment's offset and fill everywhere else |
| Logging.PieceText | seaplayer/objects/log.py:87-89 | a piece fills in iff it is literal or its field is supplied |
| Logging.Format | seaplayer/objects/log.py:87-89 | a template formats iff every field it names is supplied; the empty template gives "" |
| Logging.FormatCons | seaplayer/objects/log.py:87-89 | a template's text is its first piece's text followed by the rest's |
| Logging.NewLogger | seaplayer/objects/log.py:51-67 | the threshold defaults to NOTSET; io and templates are kept; nothing written yet |
| Logging.IoWrite | seaplayer/objects/log.py:73-77 | an open stream gains the line's plain text and a newline, and the count of characters written is returned; a line that is not valid markup raises there; a missing or closed stream is untouched, nothing is parsed, and 0 is returned |
| Logging.AssembleLine | seaplayer/objects/log.py:85-89 | the line assembles exactly when every template names only the modelled arguments `textual_log` passes it: the clock reading `{0}` and its date, time and microsecond attributes; name and colour; time, level and message |
| Logging.TextualLog | seaplayer/objects/log.py:79-91 | below threshold nothing changes; the call fails exactly when the level passes and the line either does not assemble or is not valid markup; otherwise the assembled line is written to the widget and the stream; the templates and threshold are kept |
| Logging.LogTrace | seaplayer/objects/log.py:93-94 | `trace` fails exactly when TRACE passes and the line does not assemble or is not valid markup; below the threshold nothing changes; otherwise the assembled line follows the earlier entries and is written to the stream, and nothing else changes |
| Logging.LogDebug | seaplayer/objects/log.py:96-97 | the same for `debug` at DEBUG |
| Logging.LogInfo | seaplayer/objects/log.py:99-100 | the same for `info` at INFO |
| Logging.LogWarning | seaplayer/objects/log.py:102-103 | the same for `warning` at WARNING |
| Logging.LogError | seaplayer/objects/log.py:105-106 | the same for `error` at ERROR |
| Logging.LogCritical | seaplayer/objects/log.py:108-109 | the same for `critical` at CRITICAL |
| Logging.Exception | seaplayer/objects/log.py:111-113 | below ERROR nothing changes; at or above it the call raises outside an `except` block, and otherwise appends a traceback and changes nothing else |
| Logging.Group | seaplayer/objects/log.py:119-121 | a titled panel is appended iff the level passes the threshold, and nothing else changes |
| Logging.Ln | seaplayer/objects/log.py:115-117 | writes n empty lines to the widget (none when n <= 0); stream, threshold and templates are kept |
| Logging.OneLineIffAtLeast | seaplayer/objects/log.py:84-91 | `textual_log` fails iff the level passes and the line does not assemble (a template names an argument outside the modelled ones) or is not valid markup; otherwise it writes one line iff the level passes, after all earlier entries |
| Logging.IoWriteAppends | seaplayer/objects/log.py:73-77 | a write that goes through keeps a stream's presence and closed flag, keeps its old contents as a prefix and grows it by exactly the returned count; two lines that parse, written to an open stream, are appended in order |
| Logging.EntriesFollowThreshold | seaplayer/objects/log.py:111-121 | `group` at a level writes exactly when `textual_log` at that level acts (writes or raises), and exactly when it writes if its line is writable; `exception` inside an `except` block writes exactly when `error` acts |
| Logging.DefaultThresholdEmitsAll | seaplayer/objects/log.py:63 | a logger built without a level drops no level: the line always assembles, and it is written exactly when it is valid markup |
| Logging.InfoThresholdKeepsDebug | seaplayer/objects/log.py:14-16 | at threshold INFO, `debug` is still emitted when its line is valid markup (DEBUG = 30), and `trace` is dropped |
| Logging.DefaultTemplatesBound | seaplayer/objects/log.py:44-46 | the default templates name only the arguments they are given, so `str.format` never raises on them |
| Logging.DefaultLoggerBinds | seaplayer/objects/log.py:44-56 | a logger built with the default templates always assembles its line (whether the line is valid markup is separate) |
| Logging.DefaultLogFormat | seaplayer/objects/log.py:46 | the default line is `\[` time `]\[` level `]: ` message |
| Logging.DefaultLevelFormat | seaplayer/objects/log.py:45 | the default level text is the name centred in 11 columns inside a `[color]...[/color]` tag |
| Logging.WholeClockFormats | seaplayer/objects/log.py:87 | a time template of just `{0}` prints `str(now)`: the date and time with a space between, microseconds only when non-zero |
| Logging.PaddedIsZeroPad | seaplayer/objects/log.py:44 | the zero padding `datetime` prints its fields with is the `0>width` format spec |
| Logging.DefaultTimeFormat | seaplayer/objects/log.py:44 | the default time is `dd.mm.yyyy hh:mm:ss`, each field zero-padded to two digits and the year to four |
| Logging.DefaultLineShape | seaplayer/objects/log.py:84-89 | with the default templates, the emitted line is the time, the coloured centred level name and the message in that frame |
| Logging.OffTag | seaplayer/objects/log.py:24-45 | at OFF the default level text is `[]  UNKNOWN  [/]`: an empty tag, the name centred in 11 columns, and a bare closing tag |
| Logging.OffLine | seaplayer/objects/log.py:84-91 | a default logger called at OFF assembles `\[`, the time, `]\[[]  UNKNOWN  [/]]: ` and the message, and fails exactly when the markup parser rejects that line |
| Logging.LevelNameCentred | seaplayer/objects/log.py:34-45 | every level name fits 11 columns, so the centred name is exactly 11 characters |
| Common.Decimal | seaplayer/others/ripix.py:38 | the text an f-string gives a channel: at least one digit, no leading zero, one digit exactly below 10 |
| Common.DecimalRoundTrip | seaplayer/others/ripix.py:38 | reading the digits back gives the number |
| Common.DecimalInjective | seaplayer/others/ripix.py:38 | distinct channel values print differently |
| Ripix.RgbText | seaplayer/others/ripix.py:38 | the colour text has the `rgb(...)` shape |
| Ripix.GetColor | seaplayer/others/ripix.py:36-38 | a visible pixel gives its rgb text and a transparent one the default; the result is truthy iff the pixel is visible or the default is truthy |
| Ripix.RgbTextInjective | seaplayer/others/ripix.py:38 | equal colour texts mean equal red, green and blue channels |
| Ripix.NullStyleOf | seaplayer/others/ripix.py:56-58 | no null style without a default colour; otherwise the default colour as background |
| Ripix.HalfcellColors | seaplayer/others/ripix.py:140-150 | one or two colours: first the lower pixel's colour, or "" when it is falsy; second the upper pixel's colour, present exactly when it is truthy |
| Ripix.HalfcellCell | seaplayer/others/ripix.py:139-154 | one character: the half block iff the lower colour is truthy, else a space; the style is always parsed; the style is exactly the colours joined by " on "; spelled out for every combination of opaque or transparent pixels, with and without a truthy default colour |
| Ripix.HalfcellCellAsWritten | seaplayer/others/ripix.py:154 | under an opaque lower pixel the cell prints the three-character literal as written, which differs from the corrected cell |
| Ripix.HalfcellLine | seaplayer/others/ripix.py:131-137 | one cell per column, cell x being the half cell of pixel (x, y) over pixel (x, y + 1), each one character wide, using the corrected glyph |
| Ripix.GlyphAsWritten | seaplayer/others/ripix.py:154 | the half block is one character, the literal as written is three, and an opaque cell shows each |
| Ripix.HalfcellRange | seaplayer/others/ripix.py:128-129 | every second row from 0, all below the height, ceil(height/2) of them |
| Ripix.FullcellRange | seaplayer/others/ripix.py:162-163 | every row, in order |
| Ripix.Range | seaplayer/others/ripix.py:75 | every row the renderer visits lies inside the image |
| Ripix.FullcellCell | seaplayer/others/ripix.py:173-180 | two spaces on the pixel's rgb background when visible, otherwise the null style |
| Ripix.FullcellLine | seaplayer/others/ripix.py:165-171 | one cell per column, cell x being the full cell of pixel (x, y), each two spaces wide |
| Ripix.LineAt | seaplayer/others/ripix.py:131-137 | a rendered line has one cell per pixel column |
| Ripix.LinesDefined | seaplayer/others/ripix.py:143-144 | rendering fails (IndexError) exactly for a half-cell render of a non-empty image of odd height; otherwise one line per visited row, one cell per column |
| Ripix.RowKeptIffNonEmpty | seaplayer/others/ripix.py:84-85 | no style compares equal to "", so exactly the empty lines are dropped and every other line is kept with its newline |
| Ripix.EmitLength | seaplayer/others/ripix.py:73-87 | lines of w > 0 cells give w + 1 segments each |
| Ripix.EmitAt | seaplayer/others/ripix.py:73-87 | cell j of line k sits at k(w+1)+j, and the newline follows the last cell |
| Ripix.EmitEmptyLines | seaplayer/others/ripix.py:84-85 | lines without cells leave nothing, not even newlines |
| Ripix.Render | seaplayer/others/ripix.py:60-87 | the row loop computes the kept rows of every line in range order, or fails when a line does; half cells use the corrected glyph |
| Ripix.HalfcellLines | seaplayer/others/ripix.py:128-137 | for even height every visited row has the row below it, so the render succeeds with height / 2 lines, line k pairing pixel rows 2k and 2k + 1 |
| Ripix.HalfcellAt | seaplayer/others/ripix.py:128-154 | for even height, text row k cell x is the corrected half cell of pixel (x, 2k) over pixel (x, 2k+1), each row closed by the newline |
| Ripix.FullcellAt | seaplayer/others/ripix.py:162-209 | row y cell x is pixel (x, y), each row closed by the newline |
| Ripix.ZeroWidthRendersNothing | seaplayer/others/ripix.py:84-85 | an image without columns renders to nothing |
| Ripix.HalfcellTarget | seaplayer/others/ripix.py:117-119 | the target height is twice the requested or image height, so it is even and the round-up never fires |
| Ripix.HalfcellResizeAsWritten | seaplayer/others/ripix.py:117-124 | as written: a new resize to the target height when the image differs from it, else the caller's resize unchanged |
| Ripix.HalfcellResizeAsWrittenFails | seaplayer/others/ripix.py:117-126 | a 4x6 image with resize (4, 3) is resized to height 3, and the half-cell render then fails |
| Ripix.HalfcellResize | seaplayer/others/ripix.py:117-124 | corrected: the image always ends up at the target height, with the requested (or its own) width |
| Ripix.HalfcellResizeRenders | seaplayer/others/ripix.py:117-126 | with the corrected resize the half-cell render never fails and has one text row per requested row |
| Ripix.FullcellResize | seaplayer/others/ripix.py:189-191 | a resize keeps its height and halves its width, rounding down |
| Ripix.PixelSegment | seaplayer/others/ripix.py:260-265 | a space on the pixel's rgb background when visible, otherwise `Style.null()` |
| Ripix.SegmentsFromImage | seaplayer/others/ripix.py:245-268 | the nested loops (with the swapped width and height names) walk the image row by row, one segment per pixel then a newline |
| Ripix.ImageSegmentsAt | seaplayer/others/ripix.py:254-268 | width + 1 segments per row, even for zero width; pixel (x, y) at y(w+1)+x, and the newline after the row |
| Ripix.FromAscii | seaplayer/others/ripix.py:284-305 | one segment per character: the mapped segment, or the bare character without style; with no mapping the texts spell the grid back |
| PlaybackModes.ModeValue | seaplayer/_types.py:22-25 | the enum values: PLAY is 0, REPLAY_SOUND 1 and REPLAY_LIST 2 |
| PlaybackModes.Switch | seaplayer/seaplayer.py:70-76 | PLAY, then REPLAY_SOUND, then REPLAY_LIST, then PLAY: the value goes up by one mod 3 and always changes |
| PlaybackModes.SwitchCycle | seaplayer/seaplayer.py:70-76 | three presses bring the mode back; two never do |
| PlaybackModes.Lower | seaplayer/seaplayer.py:57 | on the ASCII member names it is applied to, `lower()` maps upper-case letters down and keeps every other character |
| PlaybackModes.ModeTextKey | seaplayer/seaplayer.py:56-57 | the label key is `player.button.mode.` followed by the lower-cased member name |
| PlaybackModes.SwitchPlaybackMode | seaplayer/seaplayer.py:70-77 | the handler moves to the next mode and relabels the button with that mode's key |
| PlaybackModes.DefaultModeFirstPress | seaplayer/seaplayer.py:52-77 | a fresh cache starts the mode as PLAY with the `play` key, and the first press moves to REPLAY_SOUND with the `replay_sound` key |
| PlaybackModes.ModeTextKeyInjective | seaplayer/seaplayer.py:56-57 | distinct modes have distinct label keys |
| PlaybackModes.PlayKey | seaplayer/seaplayer.py:57 | PLAY's key is `player.button.mode.play` |
| PlaybackModes.ReplaySoundKey | seaplayer/seaplayer.py:57 | REPLAY_SOUND's key is `player.button.mode.replay_sound` |
| PlaybackModes.ReplayListKey | seaplayer/seaplayer.py:57 | REPLAY_LIST's key is `player.button.mode.replay_list` |

## Left out

- The playback engine: `__loop__`, `select_by_uuid`, `select_by_track`, and `play`/`stop` of both `Playbacker` and `Track`, plus `Track.pause`. All have empty bodies in the source.
- `Track.playing` and `Track.paused`: they name `PlayerState`, which is never defined. On a selected track they raise `NameError`. Nothing in the code selects a track, so the model never reaches them.
- `Track.duration`, `get_position`, `set_position` and `metadata`: they read the audio source, which is outside this model.
- The streamer and the callback given to `Playbacker`: they are stored but never used.
- `Track.__del__`: there is no destructor in the model.
- `Tracks.Remove`: Python's `del track` only drops a local name, so it has no counterpart. The annotated `-> bool` is not honoured (the method returns `None`), and no result is modelled.
- `Timer` and `SegmentTimer` `__str__`, `__repr__`, `__int__` and `__format__`: float printing and rounding are not modelled. Readings are reals, so float rounding is out too.
- `runner_wrapper`: it inspects coroutines and runs an event loop.
- `Logging.Format`: templates come already split into literals and fields, so parsing `str.format` syntax is not modelled. Only fill, alignment and width are modelled in a field's spec.
- `Logging.IoWrite`: Rich's markup parser is the parameter `markup`, since Rich is not part of this model. Its plain text and its failures are whatever that parameter says. Rich's actual parser rejects, for example, a closing tag with nothing open.
- `Logging.TextualLog`: `RichLog.write` is a record of entries, and it parses the line at the call. Textual's `RichLog` may hold a write back until the widget knows its size. A line that is not valid markup then raises at the call only when `_iowrite` parses it for an open stream, and otherwise later, when the held write is rendered. The model puts the widget's failure at the call in every case. Beyond the parse, how Rich renders the markup is not modelled.
- `Logging.AssembleLine`: the clock argument offers `{0}` (that is, `str(now)`) and its `year`, `month`, `day`, `hour`, `minute`, `second` and `microsecond` attributes. Any other attribute of a `datetime` (`tzinfo`, `fold`, or a method such as `weekday`) and attribute or index access on the other arguments count as failing here, although Python would print the object's text. A format spec on `{0}` itself pads the text like a string, whereas `datetime.__format__` hands a non-empty spec to `strftime`.
- `Logging.OneLineIffAtLeast`: the template half of its failure condition is the binding of `Logging.AssembleLine`, with the same restriction on the clock attributes. The markup half carries the widget timing described under `Logging.TextualLog`.
- `Logging.Exception`: `handling` stands for whether an exception is being handled, which Rich's `Traceback()` reads from `sys.exc_info()`. The traceback's content is not modelled.
- `Ripix.HalfcellLine`: the render chain (`Ripix.HalfcellLine`, `Ripix.Lines`, `Ripix.Render`, `Ripix.HalfcellAt`) is built from the corrected half cell with the one-character glyph. The as-written three-character literal is exhibited only by `Ripix.HalfcellCellAsWritten` (see Findings).
- Rich `Panel` and `Traceback` rendering: both are entries without content.
- Pillow: `convert("RGBA")`, `resize`, the resampling filter and `from_image_path` (file I/O). Each renderer takes the image Pillow would produce. The resize computations are modelled separately (`Ripix.HalfcellResize`, `Ripix.FullcellResize`).
- `Style.parse` and `Style.null`: a parsed style is its definition text. Whether Rich accepts that text is not modelled.
- `RichPixels.from_segments` and `__rich_console__`: they only wrap the segment list.
- `Ripix.Render`: an `IndexError` aborts the whole render, so a failing line is an overall failure. The segments emitted before it are not kept.
- The rest of `seaplayer/seaplayer.py`: composing widgets, the stub handlers, the configuration, the cache and language loading. `get_playback_mode_text` is modelled up to the key it looks up; the lookup (`ll.get`) belongs to the language loader, which is not part of this model.
- Textual's `ListView` index setter and message queue: the cursor is a plain optional integer, and posted messages are returned one per call.
- `PlaybackModes.Lower`: only ASCII capitals are lowered. Python's `str.lower` also lowers other letters (`'É'` becomes `'é'`), but it is applied here only to the ASCII names of the mode members, where the two agree.

## Findings

| source | as written | input that shows it | evidently intended | confidence | as-written member | corrected member |
|---|---|---|---|---|---|---|
| seaplayer/others/ripix.py:154 | the glyph literal is `'â–„'`, three characters (U+00E2 U+2013 U+201E). They are the UTF-8 bytes of U+2584 read back as Windows-1252 | any half cell with an opaque lower pixel, e.g. both pixels `(0, 0, 0, 255)`: it prints three characters where one cell was meant | the lower half block U+2584, one character | high (the bytes of the file were inspected); not executed | Ripix.HalfcellCellAsWritten | Ripix.HalfcellCell |
| seaplayer/others/ripix.py:117-126 | when the image already has the target height `2 * resize[1]`, the caller's `resize` is passed on unchanged | a 4x6 image with `resize=(4, 3)`: the target 6 equals the height, so the image is resized to 4x3, and row 2 then reads row 3 (`IndexError`) | always resize to the requested width at the target height | high; not executed | Ripix.HalfcellResizeAsWrittenFails | Ripix.HalfcellResizeRenders |
