# ConverteTxt_MP3 in Dafny

ConverteTxt_MP3 is a desktop tool. You paste text into it. It can then do two things:

- **Read** the text aloud with an offline speech engine (pyttsx3).
- **Generate** an MP3 from the text.

To generate an MP3, the tool:

1. splits the text into chunks of bounded length;
2. synthesizes each chunk into its own part file, using Edge TTS or gTTS as the fallback;
3. joins the parts, with FFmpeg's concat demuxer or by plain byte concatenation;
4. names the output after the text's first non-blank line, made safe for the file system and made unique in the output folder.

While a job runs, the user can pause, resume or stop it. The controls act only between chunks. A stop also rebuilds the reading engine once the job ends.

This project models the logic of `main.py` and proves its properties.

| Module | File | What it models |
|---|---|---|
| `Wrappers` | `wrappers.dfy` | `Option` and `Result`. |
| `Text` | `text.dfy` | The Python string operations the program relies on: `strip()` and `strip(chars)`, the CRLF rewrite, `find`/`rfind`, `splitlines()` and `"\n".join`, decimal formatting with `:04d`, ASCII `lower()`, the substring test `in`, and byte concatenation. The lemmas about each are listed in the table below. |
| `Segmenter` | `segmenter.dfy` | `smart_split_text`: a method with the source's cursor loop, proved equal to a specification function (`Segment`), and the properties of that function. |
| `FileNames` | `filenames.dfy` | `sanitize_filename`, `pick_first_nonempty_line` (a scan over the lines) and `unique_path` (a counter loop over the folder's names). |
| `Concat` | `concat.dfy` | The list file written for FFmpeg's concat demuxer, with its quote escaping, the two errors of `concat_mp3_ffmpeg`, and `concat_mp3_naive`. |
| `JobPolicy` | `policy.dfy` | The decisions the controller takes on plain values, listed below. |
| `Jobs` | `jobs.dfy` | The `App` object as a class, listed below. |

The decisions in `JobPolicy` are:

- how a commit of the staged settings replaces the applied configuration;
- the settings snapshot a generation job takes;
- the backend choice and the warnings in the completion text;
- the progress percentages;
- `_get_text_to_speak`;
- the effect of the pause and stop buttons at a chunk boundary;
- the chunk loop as a walk over the boundaries.

The `App` class in `Jobs` holds:

- the busy lock;
- the pause gate and the stop flag;
- the pending engine restart and the current job;
- the applied configuration and the engine's state;
- the progress bar;
- the names in the output folder;
- a log of what the user observes (chunks spoken, parts synthesized, the file written, dialogs).

Its methods are the guards and flag handlers, and the two jobs with their chunk loops.

The worker thread runs in sequence with the user's actions, which arrive as inputs at each chunk boundary:

- one list of presses is applied before the first stop check;
- another is applied while the worker waits on the pause gate;
- one more (`trailing`) is applied after the loop.

What the engine call for each chunk does is also an input: it returns (with the MP3 bytes when generating) or raises. A worker that finds the gate closed stays blocked; the outcome `Waiting` records that.

## Model

| member | source | states |
|---|---|---|
| Text.TrimLeftSpec | main.py:159 | Stripping the left side removes exactly a prefix of dropped characters and leaves a suffix that starts with a kept character. |
| Text.TrimRightSpec | main.py:159 | Stripping the right side removes exactly a suffix of dropped characters and leaves a prefix that ends with a kept character. |
| Text.StripBy | main.py:162 | `strip(chars)` is empty exactly when every character is dropped; otherwise it starts and ends with a kept character; it is never longer than the input. |
| Text.StripBySpec | main.py:162 | The same facts, stated about the left strip followed by the right strip. |
| Text.Strip | main.py:159 | `strip()` is empty exactly when the text is all whitespace; otherwise its ends are not whitespace. |
| Text.StripByInfix | main.py:162 | The stripped text is a contiguous slice of the input. |
| Text.StripByNoop | main.py:162 | A text whose ends are already kept characters is unchanged by stripping. |
| Text.StripIdempotent | main.py:159 | Stripping twice gives the same as stripping once. |
| Text.ReplaceCRLF | main.py:219 | Rewriting CRLF to LF never lengthens the text, adds no character, removes only carriage returns, and leaves a text without carriage returns unchanged. Its full behaviour is stated by `ReplaceCRLFPair` and `ReplaceCRLFNoPair`. |
| Text.ReplaceCRLFPair | main.py:219 | A `\r\n` between two texts becomes one `\n`, and the texts on either side are rewritten on their own: the rewrite of `a + "\r\n" + b` is the rewrite of `a`, a line feed, then the rewrite of `b`. |
| Text.ReplaceCRLFNoPair | main.py:219 | A text in which no `\r` is directly followed by `\n` is left unchanged. |
| Text.Find | main.py:736 | The index of the first occurrence of a character, or -1 when there is none. |
| Text.RFindIn | main.py:239 | A position within the range holding the character, or -1. |
| Text.RFindInLast | main.py:239 | No later position in the range holds the character: the result is the last occurrence. |
| Text.RFindInShift | main.py:236-239 | Searching the window `s[i:end]` finds the same position as searching `s` between `i` and `end`, shifted by `i`. |
| Text.RFind | main.py:250 | `rfind`: a position holding the character, or -1. |
| Text.RFindLast | main.py:250 | No position after `rfind`'s result holds the character. |
| Text.SplitLines | main.py:169 | `splitlines()` with `\n` as the line break: no line holds a break, joining the lines gives back the text without its final break, and only the empty text has no lines. |
| Text.SplitJoin | main.py:270-274 | Splitting the join of non-empty, break-free lines gives the lines back. |
| Text.SplitAtFirst | main.py:736-737 | A text whose first line is `x` splits into `x` followed by the lines of the rest. |
| Text.Dec | main.py:950 | A decimal numeral is a non-empty string of digits. |
| Text.ParseDecOfDec | main.py:950 | Reading the numeral of `n` back gives `n`. |
| Text.ZeroPad | main.py:950 | `:04d` left-pads with zeros to the width and ends with the digits themselves. |
| Text.LowerChar | main.py:925 | A capital ASCII letter becomes the small letter at the same place in the alphabet. Any other character is kept. The result is never a capital. |
| Text.Lower | main.py:925 | `lower()` keeps the length, leaves no capital ASCII letter, and keeps every character that is not one. |
| Text.LowerIdempotent | main.py:925 | A text without capitals is unchanged by `lower()`, so lower-casing twice equals lower-casing once. |
| Text.LowerAppend | main.py:981 | `lower()` works character by character: lower-casing a concatenation is the concatenation of the lower-cased parts. |
| Text.ContainsInfix | main.py:981 | `t in s` holds whenever `t` occurs in `s`, wherever it occurs. |
| Text.FlattenAppend | main.py:292-295 | Concatenating two lists of byte strings is the concatenation of their concatenations. |
| Segmenter.Bound | main.py:226 | The chunk bound is the larger of 300 and the configured bound. |
| Segmenter.LastBreakIn | main.py:244-247 | The sentence-break scan finds a position in the range holding one of `.!?;:`, or -1. |
| Segmenter.LastBreakInIsLast | main.py:244-247 | The scan runs backwards, so no later position in the range holds a sentence break. |
| Segmenter.LastBreakInShift | main.py:236-247 | Scanning the window equals scanning the text at the shifted range. |
| Segmenter.CutAt | main.py:239-255 | The cut of a full window is at least 1 and at most the window length, so the cursor always advances and never passes the window. |
| Segmenter.CutAtPriority | main.py:239-255 | The fixed priority holds. (1) A newline at or after floor(0.60 m) gives a cut just after the last newline. (2) Otherwise a sentence break after floor(0.55 m) gives a cut just after the last sentence break. (3) Otherwise a space at or after floor(0.55 m) gives a cut just after the last space. (4) Otherwise the cut is the whole window. |
| Segmenter.CutAtNewline | main.py:239-241 | Case (1) of the priority, on its own. |
| Segmenter.CutAtBreak | main.py:243-247 | Case (2) of the priority, on its own. |
| Segmenter.CutAtSpace | main.py:249-252 | Case (3) of the priority, on its own. |
| Segmenter.CutAtHard | main.py:254-255 | Case (4) of the priority, on its own. |
| Segmenter.CutAtShift | main.py:236-255 | The cut computed on the window `s[i:end]` equals the cut computed in place in `s`. |
| Segmenter.KeptAppend | main.py:257-259 | Keeping the non-blank stripped slices distributes over concatenation. |
| Segmenter.FindCut | main.py:236-255 | The loop body's cut search computes the specified cut. |
| Segmenter.Segment | main.py:218-262 | The specification function of `smart_split_text`: the kept, stripped slices of the cut sequence over the normalised text. Its contract is stated by `SegmentReconstructs`, `SegmentChunksBounded` and `SegmentEmptyIffBlank`. |
| Segmenter.SmartSplitText | main.py:218-262 | `smart_split_text` returns exactly `Segment(text, max_chars)`. |
| Segmenter.SplitNormalized | main.py:222-262 | The cursor loop over the normalised text yields the kept, stripped slices of the cut sequence, in order. |
| Segmenter.TakeLast | main.py:229-234 | The final partial window contributes its stripped slice when that is non-blank, and ends the loop. |
| Segmenter.TakeWindow | main.py:236-260 | A full window advances the cursor strictly, and the chunks collected so far plus those from the new cursor are the chunks from the old one. |
| Segmenter.SlicesFlatten | main.py:229-260 | The consumed slices, in order, concatenate exactly to the normalised text. |
| Segmenter.SlicesBounded | main.py:229-255 | Every consumed slice is non-empty and at most the bound long. |
| Segmenter.KeptShape | main.py:257-259 | Every kept chunk is non-empty, equal to its own strip, and no longer than its slice's bound. |
| Segmenter.SegmentReconstructs | main.py:218-262 | The slices concatenate to the normalised text; each is non-empty and within the bound; the chunks are those slices stripped, with the blank ones dropped. |
| Segmenter.SegmentChunksBounded | main.py:226-260 | Every chunk is non-empty, has no surrounding whitespace and is at most max(300, max_chars) long. |
| Segmenter.ReplaceCRLFKeepsBlankness | main.py:219-221 | The CRLF rewrite neither creates nor removes non-whitespace. |
| Segmenter.SegmentEmptyIffBlank | main.py:219-221 | The segmenter returns no chunk exactly when the text is empty or whitespace only. |
| FileNames.ReplaceReserved | main.py:160 | Each of `\ / * ? : " < > \|` becomes `_`; other characters stay; the length is unchanged; no reserved character is left. |
| FileNames.CollapseSpaces | main.py:161 | `re.sub(r"\s+", " ", s)` never lengthens the text and leaves a text without whitespace unchanged. Its other properties are stated by `CollapseSpacesHead`, `CollapseSpacesSingle`, `CollapseSpacesChars` and `CollapseSpacesNoop`. |
| FileNames.CollapseSpacesHead | main.py:161 | Collapsing whitespace runs keeps emptiness and whether the text starts with whitespace. |
| FileNames.CollapseSpacesSingle | main.py:161 | After collapsing, no two whitespace characters are adjacent. |
| FileNames.CollapseSpacesChars | main.py:161 | Collapsing introduces no character but the space. |
| FileNames.CollapseKeepsNoReserved | main.py:160-161 | Collapsing cannot reintroduce a reserved character. |
| FileNames.CollapseSpacesNoop | main.py:161 | A single-spaced text is unchanged by collapsing. |
| FileNames.InfixKeeps | main.py:162-165 | A slice of a reserved-free, single-spaced name keeps both properties. |
| FileNames.PyPrefix | main.py:165 | `name[:max_len]` is a prefix of the name, of length `max_len` when that fits. |
| FileNames.CleanName | main.py:158-164 | The name before truncation. Its contract is stated by `CleanNameShape`, `CleanNameFixed` and `CleanNameIdempotent`. |
| FileNames.CleanNameShape | main.py:158-164 | Before truncation the name is non-empty and reserved-free. It is single-spaced and starts and ends with neither a space nor a dot. |
| FileNames.StripDotsShape | main.py:162 | Stripping spaces and dots keeps reserved-freedom and single spacing, and leaves no whitespace at either end. |
| FileNames.SanitizeFilename | main.py:158-165 | `sanitize_filename`: the cleaned name cut to `max_len`. Its contract is stated by `SanitizeFilenameSafe`, `SanitizeFilenameKeeps` and `SanitizeFilenameIdempotent`. |
| FileNames.SanitizeFilenameSafe | main.py:158-165 | For `max_len >= 1` the name is non-empty and at most `max_len` long. It has no reserved character and no two adjacent whitespace characters. It starts with neither a space nor a dot. |
| FileNames.CleanNameFixed | main.py:158-164 | The names cleaning leaves unchanged are exactly those of the shape `CleanNameShape` states: non-empty, reserved-free, single-spaced, with no space, dot or whitespace at either end. |
| FileNames.CleanNameIdempotent | main.py:158-164 | Cleaning a cleaned name changes nothing. |
| FileNames.SanitizeFilenameIdempotent | main.py:158-165 | When truncation does not bite, sanitizing twice equals sanitizing once. |
| FileNames.SanitizeFilenameKeeps | main.py:158-165 | A name of the clean shape that fits in `max_len` comes back unchanged. |
| FileNames.FallbackNameShape | main.py:163-164 | The fallback "audio" already has the shape of a cleaned name. |
| FileNames.PickFirstNonemptyLine | main.py:168-172 | The result is the stripped first non-blank line, or "audio" when every line is blank. It is non-empty and has no whitespace at either end. |
| FileNames.FirstNonBlankLine | main.py:169-172 | The scan over the lines returns the first non-blank one, stripped, or "audio". |
| FileNames.FirstNonBlankUnique | main.py:169-171 | At most one line is the first non-blank one. |
| FileNames.NamesDistinct | main.py:176-182 | `base.mp3` differs from every `base (i).mp3`, and different numbers give different names. |
| FileNames.DecLength | main.py:180-185 | A number at least `10^k` has more than `k` digits. |
| FileNames.FirstFreeUnique | main.py:175-185 | At most one name is "the plain name if free, else the first free numbered name from 2". The choice is determined by the folder. |
| FileNames.FreeNumber | main.py:180-185 | A finite folder leaves some numbered name free, so the search ends. |
| FileNames.UniquePath | main.py:175-185 | The result is not in the folder. It is `base.mp3` when that is free. Otherwise it is `base (i).mp3` for the smallest free `i >= 2`. `base` is the sanitized file name. |
| Concat.EscapeQuotes | main.py:272 | Escaping never shortens a path, leaves a path without single quotes unchanged, and adds no character but the backslash. Its round trip is `UnquoteEscaped`. |
| Concat.ManifestLines | main.py:270-274 | One list-file line per part. That each line reads back as its part's path, in order, is stated by `ManifestRoundTrip`. |
| Concat.UnquoteEscaped | main.py:272-273 | Inside quotes, the escaped path reads back as the path, and reading continues after it. |
| Concat.UnquoteQuoteStep | main.py:272 | The sequence `'\''` reads back as one quote. |
| Concat.ParseManifestLine | main.py:272-273 | Every `file '<escaped>'` line reads back as its path. |
| Concat.EscapeNoNewline | main.py:272 | Escaping adds no line break. |
| Concat.ManifestRoundTrip | main.py:270-274 | For paths without line breaks, the list file splits into one line per part, in order, each reading back as its part's path. |
| Concat.BuildManifest | main.py:270-274 | The list file built line by line is the newline-join of the per-part lines. |
| Concat.ConcatFfmpeg | main.py:265-289 | No parts raise "Nenhuma parte para concatenar.". A zero exit status writes the list file. A non-zero status raises "FFmpeg falhou ao concatenar: " followed by the stripped stderr, or stdout when stderr is empty. |
| Concat.ConcatNaive | main.py:292-295 | The output is the parts' bytes one after another. |
| Concat.PartAt | main.py:292-295 | Each part sits unchanged in the output, right after the parts before it. |
| JobPolicy.StrippedOrSpec | main.py:642-645 | `value.strip() or fallback` is the stripped value, or the fallback when the value is blank; with a clean fallback the result is clean. |
| JobPolicy.DefaultsClean | main.py:118-131 | The default backend, voice, rate and pitch are non-empty and have no surrounding whitespace. |
| JobPolicy.ApplyStaged | main.py:640-652 | The commit of the staged settings. Its contract is stated by `ApplyStagedClean` and `StrippedOrSpec`. |
| JobPolicy.ApplyStagedClean | main.py:640-652 | Committing the staged settings always gives a non-blank, stripped backend, voice, rate and pitch. A blank voice or backend becomes its default; any other value is kept, stripped. |
| JobPolicy.TldFor | main.py:350-354 | The gTTS domain is the one listed for the label, or "com.br" for an unknown label. |
| JobPolicy.OrThenStripClean | main.py:925-928 | A clean value passes `(value or fallback).strip()` unchanged. |
| JobPolicy.TakeSnapshot | main.py:924-931 | The settings snapshot of a generation job. Its contract is stated by `SnapshotOfApplied` and `SnapshotDefaults`. |
| JobPolicy.SnapshotOfApplied | main.py:924-931 | After a commit, the snapshot holds the lower-cased backend, the voice, rate and pitch as committed, the domain for the label, and slow exactly for "Lenta". |
| JobPolicy.SnapshotDefaults | main.py:924-928 | An empty field of the applied configuration becomes its default in the snapshot. A voice made only of whitespace becomes empty instead. |
| JobPolicy.Warnings | main.py:969-973 | The warnings of the completion text. Its contract is stated by `WarningsExact`. |
| JobPolicy.DoneText | main.py:969-973 | The completion text. Its contract is stated by `DoneTextLines`. |
| JobPolicy.WarningsExact | main.py:969-973 | The gTTS warning appears exactly when "edge" was asked for but Edge TTS is missing, and the FFmpeg warning exactly when FFmpeg is missing. |
| JobPolicy.DoneTextLines | main.py:969-973 | The completion text is the file line followed by one line per warning, in order. |
| JobPolicy.CancelWordLower | main.py:981 | The marker word is already lower case. |
| JobPolicy.CancelIsSilent | main.py:979-982 | The cancellation the loop raises never opens an error dialog. |
| JobPolicy.ClampPercent | main.py:607-610 | The bar shows a value in 0..100, equal to the request when it is in range and to the nearer end when it is not. |
| JobPolicy.ClampMonotone | main.py:608 | Clamping preserves order. |
| JobPolicy.Total | main.py:921 | `max(1, len(chunks))` is at least 1 and at least the chunk count. |
| JobPolicy.PercentMonotone | main.py:947 | The per-chunk percentage never decreases as chunks advance, never exceeds its scale, and reaches the scale (100 reading, 95 generating) at the last chunk. |
| JobPolicy.TextToSpeak | main.py:730-739 | `_get_text_to_speak`. Its contract is stated by `TextToSpeakSpec`. |
| JobPolicy.TextToSpeakSpec | main.py:730-739 | The text to speak is blank exactly when the input is. Without `exclude_first_line` it is the stripped input. With it, it is the stripped text after the first line break, or the whole stripped input when nothing non-blank follows that break. |
| JobPolicy.StopSticks | main.py:678-684 | Once stop and restart are set, no later press clears them. |
| JobPolicy.StopTakesHold | main.py:678-684 | Any sequence of presses containing a stop ends with stop and restart set. |
| JobPolicy.PausesToggle | main.py:666-676 | Without a stop, a sequence of presses leaves the gate open exactly when the number of pauses is even, and changes nothing else. |
| JobPolicy.PauseResume | main.py:666-676 | Pause then resume is the same as doing nothing. |
| JobPolicy.Walk | main.py:940-958 | The loop bounds hold. Finishing every chunk means stop was never seen. A stop ends the loop with stop set. A closed gate ends it with the gate closed. A raising call started its chunk. |
| JobPolicy.StopPreventsLaterChunks | main.py:941-945 | A stop pressed at boundary `j`, before either check, leaves chunk `j` and every later chunk unstarted, and the loop does not finish. |
| JobPolicy.StopSetEndsWalk | main.py:941-942 | A loop entered with stop already set starts no chunk. |
| JobPolicy.QuietWalkCompletes | main.py:940-958 | With the gate open, no stop, no press and no failing call, every chunk is processed. |
| Jobs.ReadChunkBound | main.py:865 | Reading uses a bound of at least 800: `max(800, chunk_max_chars)`. |
| Jobs.SpokenLog | main.py:882-883 | One event per spoken chunk. |
| Jobs.PartPaths | main.py:950-958 | One part path per finished chunk. |
| Jobs.SynthLog | main.py:950-956 | One synthesis event per started chunk. |
| Jobs.PartAudios | main.py:958 | One audio value per finished part. |
| Jobs.GenFailure | main.py:940-982 | A generation ends without an exception only when the loop finished (or blocks). Without FFmpeg it never fails after the loop. |
| Jobs.ParseDecLeadingZeros | main.py:950 | Leading zeros do not change a numeral's value. |
| Jobs.PaddedIndex | main.py:950 | The four-digit padded index reads back as the index. |
| Jobs.PartPathInjective | main.py:950 | Different chunk indexes give different part files. |
| Jobs.PartPathNoNewline | main.py:950 | A part path has no line break when the temporary folder's has none. |
| Jobs.PartsManifest | main.py:270-274 | The list file for `n` parts reads back as `part_0001.mp3` … in order. |
| Jobs.StopStays | main.py:678-684 | Once stop is set, no press clears it. |
| Jobs.ReadDoneMeansAllSpoken | main.py:872-888 | "Leitura concluída." is reported only when every chunk was spoken and no stop was seen during or after the loop. |
| Jobs.FailedIsNotDone | main.py:888-890 | A failure status is never the completion status. |
| Jobs.GenCancelIsSilent | main.py:979-982 | A generation stopped by the user reports "Falhou/cancelado: " with the cancellation message and shows no error dialog. |
| Jobs.NothingToNarrateUnreachable | main.py:902-912 | Once the stripped text is non-blank, the text to speak is non-blank too, so the "Nada para narrar." guard never fires. |
| Jobs.App.constructor | main.py:356-384 | A new application is idle and not busy. The gate is open, stop is clear, no restart is pending, no engine is ready yet and the progress is 0. |
| Jobs.App.ReinitEngine | main.py:789-809 | Without pyttsx3 nothing happens. Otherwise one rebuild is attempted, the engine is ready exactly when it succeeds, and a success releases the busy lock. The job flags are untouched. |
| Jobs.App.SetProgress | main.py:607-610 | The progress becomes the clamped value; nothing else changes. |
| Jobs.App.PauseJob | main.py:666-676 | When busy, the gate toggles; when idle, nothing changes. |
| Jobs.App.StopJob | main.py:678-689 | When busy: restart armed, stop set, gate opened. When idle: nothing changes. |
| Jobs.App.Deliver | main.py:666-689 | A sequence of presses during a job has the effect `AfterOps` gives it, and the application stays valid. |
| Jobs.App.ResetJobFlags | main.py:691-694 | Stop cleared, gate open, a pending restart kept. |
| Jobs.App.EndJobCleanup | main.py:696-702 | The application is left idle with stop cleared and the gate open. A pending restart is consumed by exactly one engine rebuild; without one, no rebuild happens. |
| Jobs.App.SaveAndApplyConfig | main.py:636-657 | While busy nothing changes. Otherwise the staged settings become the configuration and the engine is rebuilt once. |
| Jobs.App.RestartEngine | main.py:659-663 | While busy nothing changes. Otherwise the engine is rebuilt once. |
| Jobs.App.SpeakChunks | main.py:872-883 | The read loop follows `Walk`. Exactly the chunks it started are spoken, in order. The progress shows the last started chunk's percentage. |
| Jobs.App.SpeakOne | main.py:873-883 | One round of the read loop: stop check, gate wait, second stop check, progress, speech. |
| Jobs.App.ReadNow | main.py:849-896 | While busy nothing happens. A blank text gives the "Cole um texto" error dialog. A missing engine gives the "Indisponível" dialog. Otherwise the job runs to the ending `ReadEnded` describes. |
| Jobs.App.StartRead | main.py:861-896 | From an idle application with a ready engine, the job runs on `smart_split_text(text, max(800, chunk_max_chars))` to the ending `ReadEnded` describes. |
| Jobs.App.RunRead | main.py:868-894 | The worker ends in one of four ways. (1) Blocked at the gate, still busy. (2) Failed: the engine dropped and an error dialog shown. (3) Cancelled. (4) Done, with the progress at 100. In the last three the application ends idle, and the engine is rebuilt exactly when stop was pressed. |
| Jobs.App.GenerateMp3 | main.py:899-986 | While busy nothing happens; a blank text gives the "Cole um texto" dialog. The output name is the first free name for the sanitized first non-blank line, or for "audio". Past the guards the job runs to the ending `GenEnded` describes. |
| Jobs.App.StartGen | main.py:916-986 | The job runs on `smart_split_text(text, chunk_max_chars)` with the snapshot of the applied settings, to the ending `GenEnded` describes. |
| Jobs.App.BeginGen | main.py:916-931 | Flags reset, busy, progress 0. The chunks are cut and the snapshot taken from the applied configuration. |
| Jobs.App.RunGen | main.py:933-984 | The worker ends in one of three ways. (1) Blocked at the gate, still busy. (2) Failed: stop seen, synthesis error or FFmpeg error, with an error dialog unless it is a cancellation. (3) Succeeded: the parts joined under the chosen name, the name added to the folder, the progress at 100, the engine rebuilt and the done dialog with its warnings shown. In the last two the application ends idle. |
| Jobs.App.FinishGen | main.py:966-984 | The busy lock is released. On success the file joins the folder, the progress shows 100, the engine is rebuilt and the done dialog shown. On failure an error dialog is shown unless it is a cancellation. Then the cleanup runs. |
| Jobs.App.ConcatParts | main.py:959-963 | After a stop or a failed synthesis, the job's exception is that failure. Otherwise the progress shows 95 and the finished parts are joined: by FFmpeg's list file when FFmpeg was found, byte by byte when not. |
| Jobs.App.SynthChunks | main.py:940-958 | The generation loop follows `Walk`. Each started chunk is synthesized in order into `part_{idx:04d}.mp3` with the snapshot's voice. The parts list holds the files of the finished chunks. |
| Jobs.App.SynthOne | main.py:941-958 | One round of the generation loop: stop check, gate wait, second stop check, progress, synthesis. |

## Left out

- The Tk user interface is not modelled: windows, styles, widgets, shortcuts, `DoneDialog` and `_refresh_summary`. `_set_busy` is modelled only as the busy flag, and status-bar texts only where a job reports its ending. `clear_text` is left out because it only touches widgets.
- The speech engine, Edge TTS, gTTS, `ffmpeg_status` and the FFmpeg process are inputs rather than calls: whether pyttsx3 and edge_tts are installed, whether an engine build succeeds (`initOk`), what each chunk's call does (`Step.call`), whether FFmpeg was found (`ffmpegOk`) and what it reports (`run`). One `initOk` serves every rebuild within a job's ending.
- Loading and saving the JSON configuration file is left out, along with `open_folder`, because they are file and OS I/O. The engine's voice catalogue (`_load_voices_into_ui`) and `_apply_pyttsx3_settings_from_cfg` are left out for the same reason. `_init_pyttsx3` is `ReinitEngine` once pyttsx3 is installed.
- `engine.stop()` inside `stop_job` is not modelled, because it only interrupts the engine's current utterance.
- Threads and `after()` callbacks are not modelled. A callback takes effect where it is scheduled, and the worker runs in sequence with the user's presses. The busy flag is set synchronously, so the race in which a second job starts before the first worker marks the application busy is not captured.
- The temporary folder is not modelled beyond its name, which is the parameter `dir`.
- The output folder is a finite set of names compared exactly. A case-insensitive file system is not modelled.
- A worker blocked on the closed pause gate is reported as `Waiting`. A user who resumes later is modelled by running the job with that press among the boundary's inputs.
- Segmenter.NewlineFloor and Segmenter.BreakFloor use the exact floors of `60 m / 100` and `55 m / 100`. Python multiplies by the binary floating-point values of 0.60 and 0.55, and the model does not capture that rounding.
- JobPolicy.Percent uses the exact floor of `idx * scale / total`. Python computes `int((idx / total) * scale)` in floating point, which can be one lower: for 29 of 100 it gives 28.
- Text.IsSpace is a fixed set of whitespace characters, and `\n` is the only line break `splitlines()` recognises. `\r`, `\v`, `\f` and the Unicode separators that Python also splits on are not modelled.
- Text.Lower changes only ASCII letters.
- Concat.Unquote is a small reader of the list file's quoting: single quotes open and close a quoted run, outside quotes a backslash takes the next character literally and every other character, a space included, is kept, and an unclosed quote or a trailing backslash is an error. The round trip is proved against this reader, not against FFmpeg's own tokenizer.
- Jobs.PartPath joins the folder and the file name with `/`. The `pathlib` join at main.py:950 uses `\` on Windows; the model does not capture that separator.

## Behaviour worth noting

- **The sentence-break threshold is strict** (main.py:244). The backward scan's `range` stops above floor(0.55 m), so a break at that index is not found. The newline and space thresholds accept that index itself.
- **A commit while a job runs raises no error** (main.py:637-638, main.py:660-661). `save_and_apply_config` and `restart_engine` simply return.
- **A read that fails does not rebuild the engine** (main.py:889-892). The engine is dropped (`_py_engine = None`), and a rebuild happens only if stop was pressed.
- **Reading shows 100 % early** (main.py:879-880). The percentage for chunk `idx` is set before that chunk is spoken, so the bar shows 100 % while the last chunk is still being read.
- **A whitespace-only voice becomes empty in the snapshot** (main.py:926). The snapshot applies `(value or default).strip()`, so such a voice is stripped to nothing rather than replaced by the default. This value cannot come from a commit, which already replaces blank values (`SnapshotDefaults`, `SnapshotOfApplied`).
- **A late stop does not cancel a generation** (main.py:940-958). A stop pressed after the last chunk's checks leaves the generation running to success and only triggers the engine rebuild. In a read job (main.py:885-886), the same late stop changes the ending to "Leitura cancelada.".
- **The "Nada para narrar." guard of `generate_mp3` never fires** (main.py:911-914). The text reaching it is already known to be non-blank (`NothingToNarrateUnreachable`).
