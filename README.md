# KeyStats core, modelled in Dafny

KeyStats is a desktop utility that watches global keyboard and mouse input and
turns it into daily and cumulative statistics. This project models the parts
of it that carry its logic:

- **The event classifier** (`InputMonitor`, module `Classifier`, file
  `input_monitor.dfy`). It keeps the set of held modifier keys and the set of
  modifiers that have joined a combo. It turns raw key-down and key-up events
  into plain keystrokes and combo labels such as `Ctrl + Shift + K`. It passes
  button, mouse-move and wheel events on, with the wheel rotation turned into a
  scroll distance.
- **The key label table** (module `KeyNames`, file `key_names.dfy`). It maps
  the input hook's keycodes to display labels, with a `Key<n>` fallback.
- **The statistics aggregator** (`StatsManager`, module `Stats`, file
  `stats_manager.dfy`). It keeps today's counters, a history capped at 30
  days, and the daily and cumulative key frequency tables. It covers day
  rollover, reset, debounced persistence and the panel's snapshot queries.
  The frequency tables and their top-15 view are in module `KeyTables`
  (`key_tables.dfy`).
- **The wiring** (module `Wiring`, file `wiring.dfy`). It routes every
  classified event to the matching aggregator call.
- **The icon writer** `createIco` (module `Ico`, file `ico_writer.dfy`). It
  packs PNG images into a Windows ICO file: a 6-byte header, one 16-byte
  directory entry per image, then the images.

The modelling choices:

- Each handler of the classifier returns the list of events it emits, in
  place of the event emitter.
- The keycodes are the input hook's virtual key codes (libuiohook's `VC_*`
  values). The proofs use only the fact that they are pairwise distinct.
- A frequency table is a sequence of `(label, count)` rows in the order the
  labels were first counted, with distinct labels.
- The mouse travel is kept exactly, as the sequence of squared lengths of
  the counted moves. The distance travelled is the sum of their square roots.
  For integer coordinates the jitter test `sqrt(dx² + dy²) > 1` is the same
  as `dx² + dy² > 1` (lemma `Stats.JitterThreshold`).
- The current date is a parameter of the operations that read the clock.
- The persistent store is the ghost field `stored`, and `saves` counts the
  full saves. The debounce timer is the flag `savePending`:
  `SaveDebounced` raises it, and `DebounceElapsed` is the timer firing.
- The icon writer fills an `array<byte>` with the source's writes, one field
  at a time. Node's `writeUInt8/16LE/32LE` throw a range error on a value that
  does not fit, so `CreateIco` returns `None` exactly when some value would
  not fit (`Encodable` is false). Otherwise it returns the filled buffer.
  `IcoBytes` describes that buffer byte by byte, and `ParseIco` reads a file
  back through its directory.

## Model

| member | source | states |
|---|---|---|
| KeyNames.GetKeyName | src/main/inputMonitor.ts:233-235 | a listed keycode gets its table label; any other keycode gets `"Key"` followed by its decimal value |
| KeyNames.KeyNameNonEmpty | src/main/inputMonitor.ts:233-235 | no keycode gets the empty label |
| KeyNames.KeyCodeMap | src/main/inputMonitor.ts:134-231 | every label in the table is non-empty, so the `\|\|` fallback is taken exactly for unlisted keycodes |
| KeyNames.FallbackNamesDistinct | src/main/inputMonitor.ts:234 | two unlisted keycodes with the same fallback label are the same keycode |
| KeyNames.DecimalRoundTrip | src/main/inputMonitor.ts:234 | the decimal rendering of an integer (with a `-` sign when negative) reads back as that integer |
| KeyNames.DigitsRoundTrip | src/main/inputMonitor.ts:234 | the decimal digits of a natural number read back as that number |
| KeyNames.DecimalDigits | src/main/inputMonitor.ts:234 | the digits are non-empty and all decimal, with a single digit exactly for values below 10 |
| KeyNames.Decimal | src/main/inputMonitor.ts:234 | the rendering starts with `-` exactly when the value is negative |
| Classifier.IsModifier | src/main/inputMonitor.ts:17-24 | every modifier key has its own row in the label table, so a lone modifier keystroke is counted under its name, never a `Key<n>` fallback |
| Classifier.ModifierCount | src/main/inputMonitor.ts:17-24 | there are exactly eight distinct modifier keycodes: left and right Ctrl, Alt, Shift and Meta |
| Classifier.ModifierName | src/main/inputMonitor.ts:26-32 | the modifier name is non-empty exactly for the eight modifiers, and is one of Win, Ctrl, Alt or Shift |
| Classifier.ModifierNamesAgree | src/main/inputMonitor.ts:26-32 | for a modifier, the table label and the key name equal its modifier name; both physical variants share the name Ctrl, Alt, Shift or Win |
| Classifier.NamedVariants | src/main/inputMonitor.ts:26-32 | only the two variants of a modifier carry its name |
| Classifier.HeldByVariant | src/main/inputMonitor.ts:39-42 | a modifier name counts as held exactly when one of its two physical keys is held |
| Classifier.ComboModifiersSpec | src/main/inputMonitor.ts:34-43 | the combo prefix holds exactly the held modifier names, each once, in the order Win, Ctrl, Alt, Shift |
| Classifier.ComboModifiers | src/main/inputMonitor.ts:34-43 | at most four names, each one of Win, Ctrl, Alt or Shift, and none when no modifier key is held; which names and in what order is `ComboModifiersSpec` |
| Classifier.ComboOrdered | src/main/inputMonitor.ts:39-42 | the names come in strictly increasing position in the order Win, Ctrl, Alt, Shift |
| Classifier.Join | src/main/inputMonitor.ts:45 | joining puts the separator after every part but the last and nothing after the last; an empty list joins to the empty string |
| Classifier.ComboName | src/main/inputMonitor.ts:34-46 | the label is the ordered held modifier names, each followed by ` + `, then the key's name |
| Classifier.ComboNameShape | src/main/inputMonitor.ts:34-46 | with no modifier held (neither variant of any), the label is the key's name alone |
| Classifier.ComboNameLogical | src/main/inputMonitor.ts:34-46 | the label depends only on which modifier names are held, not on the physical variants or the order of pressing |
| Classifier.CtrlShiftLabel | src/main/inputMonitor.ts:34-46 | Shift and Ctrl held with K gives `Ctrl + Shift + K`; so do right Shift with both Ctrl keys |
| Classifier.SingleModifier | src/main/inputMonitor.ts:39-42 | with one modifier held, the combo prefix is just its name |
| Classifier.InputMonitor.constructor | src/main/inputMonitor.ts:7-10 | both modifier sets start empty and the monitor is not running |
| Classifier.InputMonitor.OnKeyDown | src/main/inputMonitor.ts:50-69 | a modifier is added to the held set and nothing is emitted; another key emits one combo when modifiers are held, marking them all used, and one plain keystroke with no state change otherwise; used ⊆ held ⊆ modifiers is kept |
| Classifier.InputMonitor.OnKeyUp | src/main/inputMonitor.ts:72-87 | a released modifier emits its own keystroke exactly when it was not used in a combo, then leaves both sets; other keys emit nothing and change nothing; the subset invariant is kept |
| Classifier.InputMonitor.OnMouseDown | src/main/inputMonitor.ts:90-93 | one event carrying the raw button id |
| Classifier.InputMonitor.OnMouseMove | src/main/inputMonitor.ts:96-98 | one event carrying the absolute position |
| Classifier.InputMonitor.OnWheel | src/main/inputMonitor.ts:101-105 | one scroll event whose distance is 3 × \|rotation\|, never negative and a multiple of 3 |
| Classifier.InputMonitor.Start | src/main/inputMonitor.ts:108-118 | a running monitor stays running; otherwise it runs exactly when the hook starts |
| Classifier.InputMonitor.Stop | src/main/inputMonitor.ts:120-130 | a stopped monitor stays stopped; otherwise it stops exactly when the hook stops; the modifier sets are not touched |
| Classifier.TapModifier | src/main/inputMonitor.ts:53-83 | pressing and releasing a modifier that is not held emits exactly one keystroke for it and restores the modifier state |
| Classifier.ModifierCombo | src/main/inputMonitor.ts:53-83 | modifier down, key down, key up, modifier up from a clean state emits exactly `<Mod> + <Key>` and no keystroke, and ends clean |
| KeyTables.Bump | src/main/statsManager.ts:124-127 | after a bump the label has a row, and the table has grown by at most one row |
| KeyTables.BumpCounts | src/main/statsManager.ts:124-127 | bumping a label raises its count by one (absent labels count from 0) and leaves every other label's count alone |
| KeyTables.BumpKeys | src/main/statsManager.ts:124-127 | bumping adds only that label, grows the table only for a new label, and keeps every existing row in place |
| KeyTables.BumpDistinct | src/main/statsManager.ts:124-127 | bumping keeps the labels distinct |
| KeyTables.BumpSpec | src/main/statsManager.ts:124-127 | all three bump properties together, for a table with distinct labels |
| KeyTables.CountAbsent | src/main/statsManager.ts:124 | a label without a row counts 0 |
| KeyTables.Count | src/main/statsManager.ts:124-127 | a label with a positive count has a row in the table; how a bump changes counts is `BumpCounts` |
| KeyTables.KeysTail | src/main/statsManager.ts:124-127 | the labels of a table are its first row's label plus the labels of the rest |
| KeyTables.DistinctCons | src/main/statsManager.ts:124-127 | a row whose label the rest lacks can go in front without repeating a label |
| KeyTables.Insert | src/main/statsManager.ts:199 | inserting a row into a sequence adds exactly one element |
| KeyTables.NonIncreasingCons | src/main/statsManager.ts:199 | a row with a count no smaller than any count of a sorted sequence can go in front of it |
| KeyTables.InsertPerm | src/main/statsManager.ts:199 | inserting a row adds exactly that row to the multiset of rows |
| KeyTables.InsertSorted | src/main/statsManager.ts:199 | inserting into a sequence sorted by descending count keeps it sorted |
| KeyTables.SortDesc | src/main/statsManager.ts:199 | the sort keeps the number of rows |
| KeyTables.SortDescPerm | src/main/statsManager.ts:199 | the sort is a permutation of the rows |
| KeyTables.SortDescSorted | src/main/statsManager.ts:199 | the sort yields non-increasing counts |
| KeyTables.SortDescSpec | src/main/statsManager.ts:197-199 | the sort is a permutation of the rows with non-increasing counts |
| KeyTables.Top | src/main/statsManager.ts:197-200 | the view has min(n, rows) rows |
| KeyTables.TopFromTable | src/main/statsManager.ts:197-200 | every row of the top-n view is a row of the table, and no row appears in the view more often than in the table, so the view lists distinct labels |
| KeyTables.TopOutranks | src/main/statsManager.ts:197-200 | no row left out of the top-n view has a higher count than a row in it |
| KeyTables.TopSpec | src/main/statsManager.ts:196-209 | the top-n view has min(n, rows) rows, taken from the table with no row repeated beyond its multiplicity, in non-increasing order, and none left out outranks one kept |
| KeyTables.TopExample | src/main/statsManager.ts:196-201 | the table A:5, B:9, C:9 lists B, C, A: ties keep table order |
| Stats.Defaults | src/main/statsManager.ts:36-43 | the first-run store is dated at load time with a day that saw no activity (so it is never archived), an empty history and tables that are valid to load |
| Stats.FreshDay | src/main/statsManager.ts:106-110 | a fresh day has all counters zero, no travel, and the given date |
| Stats.KeyLabel | src/main/statsManager.ts:121 | a numeric key is counted under its key name, a string key under itself |
| Stats.Snapshot | src/main/statsManager.ts:90-96 | a day's snapshot keeps keystrokes, travel and scroll, and has clicks = left + right |
| Stats.HadActivity | src/main/statsManager.ts:88 | an undated day, or one with neither a keystroke nor a left click, is not active and is never archived |
| Stats.KeepRecent | src/main/statsManager.ts:98-101 | the result is the most recent min(n, 30) entries of the history, in order |
| Stats.ArchiveDay | src/main/statsManager.ts:89-101 | an active day becomes the newest entry; the history grows by at most one entry and never past 30 |
| Stats.ArchiveDaySpec | src/main/statsManager.ts:89-101 | an active day (dated, with a keystroke or a left click) becomes the newest entry and the history keeps its most recent min(n + 1, 30) entries in order; an inactive day leaves the history unchanged; at most 30 stays at most 30 |
| Stats.ArchiveEvictsOldest | src/main/statsManager.ts:98-101 | archiving a 31st day leaves entries 2 to 30 followed by the new day |
| Stats.HistoryView | src/main/statsManager.ts:177-193 | for days ≥ 1, the view has between 1 and `days` entries and ends with today's snapshot |
| Stats.HistoryViewSpec | src/main/statsManager.ts:177-193 | for days ≥ 1, the view is the last min(days, n + 1) entries of the history followed by today's snapshot, which always comes last |
| Stats.JitterThreshold | src/main/statsManager.ts:149-152 | for a non-negative root of an integer squared distance, root > 1 exactly when the squared distance > 1 |
| Stats.SquaredDistance | src/main/statsManager.ts:147-149 | zero exactly when the pointer did not move; at most 1 only for a move of at most one unit along each axis |
| Stats.StatsManager.constructor | src/main/statsManager.ts:55-81 | loads the stored state; seeds an empty cumulative table from a non-empty daily one and writes it; then applies the day check: same date keeps what was loaded, a new date archives and starts fresh |
| Stats.StatsManager.Save | src/main/statsManager.ts:235-239 | the store receives today and both tables; the history entry is not rewritten; one more save |
| Stats.StatsManager.SaveDebounced | src/main/statsManager.ts:225-232 | a save is pending |
| Stats.StatsManager.DebounceElapsed | src/main/statsManager.ts:229-231 | a pending save writes the state as it is now, exactly once; no pending save writes nothing |
| Stats.StatsManager.CheckDayChange | src/main/statsManager.ts:84-114 | same date: nothing changes. New date: the outgoing day is archived if active, with the history written only then; today restarts under the new date; the daily table is emptied and saved at once; the cumulative table is kept; the 30-entry bound is kept. Afterwards today carries the current date, so a second check is a no-op |
| Stats.StatsManager.RecordKeyPress | src/main/statsManager.ts:117-130 | keystrokes + 1; the label's row + 1 in both tables; every other count, counter and the history unchanged; labels stay distinct; a save is pending |
| Stats.StatsManager.RecordLeftClick | src/main/statsManager.ts:133-136 | only the left-click counter rises, by one; a save is pending |
| Stats.StatsManager.RecordRightClick | src/main/statsManager.ts:139-142 | only the right-click counter rises, by one; a save is pending |
| Stats.StatsManager.RecordMouseMove | src/main/statsManager.ts:145-163 | a move is counted only when there is a previous sample and the squared length exceeds 1; the sample always becomes the previous one |
| Stats.StatsManager.RecordScroll | src/main/statsManager.ts:166-169 | only the scroll distance rises, by \|delta\|, so it never decreases |
| Stats.StatsManager.ResetToday | src/main/statsManager.ts:212-220 | today restarts under the current date and the daily table is emptied; the history and cumulative table are unchanged; saved at once |
| Stats.StatsManager.GetTodayStats | src/main/statsManager.ts:172-174 | a copy of today's counters |
| Stats.StatsManager.GetHistoryData | src/main/statsManager.ts:177-193 | the history view of `HistoryViewSpec` over the current fields |
| Stats.StatsManager.GetKeyStats | src/main/statsManager.ts:196-201 | at most 15 rows of today's table, none repeated, most frequent first, none left out outranking one kept |
| Stats.StatsManager.GetTotalKeyStats | src/main/statsManager.ts:204-209 | at most 15 rows of the cumulative table, none repeated, most frequent first, none left out outranking one kept |
| Stats.FirstRun | src/main/statsManager.ts:55-81 | starting from the store's defaults, whatever the current date, the manager holds a fresh day under that date, no history, empty tables and nothing pending, and the store matches |
| Stats.KeyBurstThenFlush | src/main/statsManager.ts:117-130 | a burst of key presses writes nothing until the timer fires; then exactly one save holds the state after the last press |
| Wiring.EventLabel | src/main/index.ts:229-239 | a plain keystroke is counted under its key name, a combo under its label |
| Wiring.Route | src/main/index.ts:229-259 | keystrokes and combos are key presses under their labels; button 1 is a left click and button 2 a right click; other buttons change no statistic and schedule no save; moves and wheel events reach the travel and scroll counters; only key events touch the tables, only moves the last mouse sample; the history and the store are never touched |
| Wiring.KeyDown | src/main/index.ts:229-239 | a modifier going down joins the held set, changes no statistic and leaves any pending save as it was; any other key marks every held modifier used, raises today's keystrokes by one and nothing else of today, counts one key press under the combo label of the modifiers held before it (its own name when none is held) in both tables, and schedules a save |
| Wiring.KeyUp | src/main/index.ts:229-233 | a released modifier leaves both modifier sets; if it never joined a combo it raises today's keystrokes by one and nothing else of today, counts one key press under its own name in both tables and schedules a save; anything else changes no statistic and leaves any pending save as it was |
| Wiring.HoldAndPress | src/main/index.ts:229-239 | from a clean state, holding a modifier and pressing another key raises today's keystrokes by one and counts one press of `<Mod> + <Key>` in both tables; the modifier stays held and is marked used, so its release will count nothing |
| Wiring.TypePlainKeys | src/main/index.ts:229-233 | typing non-modifier keys with no modifier held raises keystrokes by their number and each label's count by its occurrences |
| Wiring.OccurrencesSnoc | src/main/index.ts:229-233 | one more key adds one occurrence to its own label only |
| Ico.U16 | scripts/create-icon.js:62-64 | a 16-bit field takes two bytes |
| Ico.U32 | scripts/create-icon.js:80-81 | a 32-bit field takes four bytes |
| Ico.DimensionByte | scripts/create-icon.js:74-75 | the written byte is the size modulo 256, so 256 is written as 0 |
| Ico.ImageOffset | scripts/create-icon.js:66-85 | every image starts after the header and the whole directory, the first one right after them; each next offset is `ImagesContiguous` |
| Ico.Encodable | scripts/create-icon.js:62-81 | no images is always writable, and a writable list has fewer than 65536 images; that it holds exactly when no write throws is `CreateIco` |
| Ico.Header | scripts/create-icon.js:62-64 | the header is 6 bytes |
| Ico.DirEntry | scripts/create-icon.js:72-81 | a directory entry is 16 bytes |
| Ico.Directory | scripts/create-icon.js:69-81 | k entries take 16·k bytes |
| Ico.U16RoundTrip | scripts/create-icon.js:62-64 | a 16-bit little-endian field reads back as the written value |
| Ico.U32RoundTrip | scripts/create-icon.js:80-81 | a 32-bit little-endian field reads back as the written value |
| Ico.IcoBytes | scripts/create-icon.js:50-89 | the file is 6 + 16·n bytes plus the total PNG length |
| Ico.IcoHeader | scripts/create-icon.js:62-64 | the header reads reserved 0, type 1, then the image count |
| Ico.DirEntryFields | scripts/create-icon.js:74-81 | an entry holds the size byte twice (0 for 256), palette 0, reserved 0, 1 plane, 32 bits per pixel, then the image length and offset |
| Ico.IcoEntry | scripts/create-icon.js:72-81 | entry i, at byte 6 + 16·i of the file, holds those fields for image i |
| Ico.EntrySlice | scripts/create-icon.js:72 | the 16 bytes at 6 + 16·i are entry i |
| Ico.SliceReads | scripts/create-icon.js:74-81 | the fields read the same in place and in a copied-out entry |
| Ico.DirectoryAt | scripts/create-icon.js:69-72 | entry i sits at 16·i within the directory |
| Ico.ImagesContiguous | scripts/create-icon.js:66-85 | image 0 starts right after the directory and image i + 1 right after image i |
| Ico.ImageFits | scripts/create-icon.js:56-59 | every image ends inside the file |
| Ico.ConcatSnoc | scripts/create-icon.js:84-85 | the images up to i + 1 are those up to i followed by image i |
| Ico.ConcatAt | scripts/create-icon.js:84-85 | within the concatenated images, image i sits at the total length of the images before it |
| Ico.IcoImage | scripts/create-icon.js:84 | image i is copied verbatim at its offset |
| Ico.ReadImageAt | scripts/create-icon.js:80-84 | the slice named by entry i's size and offset fields is image i |
| Ico.ReadImagesRoundTrip | scripts/create-icon.js:69-85 | a file whose first k entries each lead to the matching image reads back as those k images |
| Ico.IcoRoundTrip | scripts/create-icon.js:50-89 | parsing the written file through its directory gives back exactly the input images |
| Ico.SpliceKeeps | scripts/create-icon.js:74-84 | a write changes no byte outside its range |
| Ico.SpliceAt | scripts/create-icon.js:74-84 | a write leaves its bytes at its position |
| Ico.SpliceAdjacent | scripts/create-icon.js:74-81 | two writes side by side are one write of both |
| Ico.PointwiseSplice | scripts/create-icon.js:74-81 | bytes written at a position, everything else unchanged, is that write |
| Ico.Put | scripts/create-icon.js:84 | `copy` writes the bytes at the offset and nothing else |
| Ico.WriteUInt8 | scripts/create-icon.js:74-77 | one byte is written and no other |
| Ico.WriteUInt16LE | scripts/create-icon.js:62-64 | the two little-endian bytes are written and no other |
| Ico.WriteUInt32LE | scripts/create-icon.js:80-81 | the four little-endian bytes are written and no other |
| Ico.WriteEntryFormat | scripts/create-icon.js:74-79 | the first eight entry bytes are written and no other |
| Ico.WriteEntryLocation | scripts/create-icon.js:80-81 | the length and offset fields are written and no other |
| Ico.WriteDirEntry | scripts/create-icon.js:74-81 | the eight field writes put exactly the entry at its position |
| Ico.WriteHeader | scripts/create-icon.js:62-64 | the header is in place |
| Ico.EntryStep | scripts/create-icon.js:72-81 | writing entry i extends the written directory by one entry and keeps everything else written |
| Ico.ImageStep | scripts/create-icon.js:84-85 | copying image i extends the written images by one and keeps everything else written |
| Ico.WriteImage | scripts/create-icon.js:69-86 | one loop round writes entry i and image i |
| Ico.FilledComplete | scripts/create-icon.js:88 | a buffer with every entry and image in place is the icon file |
| Ico.CreateIco | scripts/create-icon.js:50-89 | a file is produced exactly when every write's value fits its field; the file is then exactly the ICO layout of the images |

## Left out

- The input hook, the event emitter, and the try/catch and logging around
  `uIOhook.start`/`stop` are foreign code. `Start` and `Stop` take the
  hook's success as a parameter.
- Stop: the modifier sets are not cleared when the monitor stops; the model
  does not clear them either.
- `lastMouseX`/`lastMouseY` in `InputMonitor` are never read, so they are
  not modelled.
- Persistence I/O (electron-store) and the one-second `setTimeout` are left
  out. They are the ghost `stored` record and the `savePending` flag.
  `save()` writes today and both tables but not the history; the history is
  written only when a day is archived.
- The clock: `new Date().toISOString()` is a UTC date. The model takes the
  date as a parameter. The load-time default date is the `Defaults`
  parameter.
- The tray and window refreshes, IPC, window placement, number formatting
  and auto-launch are UI plumbing outside this core.
- RecordMouseMove: travel is a sequence of squared lengths, not a
  floating-point sum of `Math.sqrt` values. Rounding in the sum is not
  modelled.
- RecordScroll: scroll distance is an unbounded integer. Floating-point
  accumulation and JavaScript's 53-bit integer precision are not modelled.
- StatsManager.constructor: loaded tables must have distinct labels (true of
  any JSON object). Load failures that fall back to defaults are the
  caller's choice of `Stored` value.
- GetHistoryData: requires `days >= 1`. With 0, `slice(-0)` returns the whole
  array, which this model does not state. The default argument `days = 7` is
  not modelled: every call site passes 30, so the caller gives `days`.
- TopSpec: the order among equal counts is the table's own order (labels in
  the order they were first counted). JavaScript enumerates integer-like
  keys ("0" to "9") first, in numeric order. With tied digit labels the
  source's order therefore differs, and no general tie-order property is
  stated beyond the `TopExample` case.
- CreateIco: requires at least as many sizes as images; with fewer,
  `sizes[i]` is `undefined` in JavaScript. Node's maximum buffer length is
  not modelled. PNG rendering with `sharp` and the file writes in
  `createIcon` are I/O.
- The keycode constants are libuiohook's values. The proofs depend only on
  their being distinct.
