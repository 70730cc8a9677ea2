# Whisper Note: the note history, in Dafny

`app.py` is a one-page Streamlit app. A user records a voice clip, Whisper
transcribes it to Vietnamese text, and the text is kept in a per-session list
of notes. The page shows that list newest first. Streamlit runs the whole
script again on every interaction. The list survives these reruns in
`st.session_state.notes`, and the script does not append a transcript that
equals the last note, so a rerun on the same clip does not store it twice.

The model has four modules:

- `Transcription` (`transcription.dfy`): the audio buffer. The recogniser is an
  uninterpreted `Outcome` (`Recognised(text)` or `Failed(msg)`), passed in as
  a function `recognise: Audio -> Outcome`. `TranscriptText` turns an outcome
  into the string `transcribe_audio` returns: the text, or `"Lỗi: "` followed
  by the exception message.
- `History` (`history.dfy`): the history as a value. `KeepNote` is the
  dedup-append. `AfterRecording` is one pass of the script: the buffer check,
  transcription, the empty-transcript check, then `KeepNote`. `Replay` is the
  page run once per buffer in a series, each run one `AfterRecording`. The lemmas here are the dedup properties.
- `Listing` (`listing.dfy`): the history section. `Shown` gives the numbered,
  reversed listing, or a placeholder for an empty history. `Render` is the
  page's loop over `enumerate(reversed(notes))`, proved equal to `Shown`.
- `Session` (`session.dfy`): the class `NoteHistory` holds the session's
  `notes: seq<string>`. `Process` handles one pass and keeps the invariant
  "no two adjacent notes are equal". `Show` produces the listing.

## Model

| member | source | states |
|---|---|---|
| Transcription.TranscriptText | app.py:37-42 | a recognised text is returned unchanged; a failure gives the prefix `"Lỗi: "` followed by the message, so it is never empty whatever the message and the message can be read back after the prefix |
| Transcription.ErrorTextIsAmbiguous | app.py:40-42 | a recognised text that starts with the prefix and a failure give the same string, even though the outcomes differ |
| History.KeepNote | app.py:71-72 | the old history is a prefix of the new one, at most one note is added, and the transcript ends up as the last note |
| History.AfterRecording | app.py:59-72 | one pass adds at most one note, and only the transcript it heard, at the end |
| History.KeepNoteUnchangedIff | app.py:71 | the history is unchanged exactly when it is non-empty and its last note equals the transcript |
| History.KeepNoteAppends | app.py:71-72 | on an empty history, or a transcript unlike the last note, the transcript is appended once and every earlier note stays in place |
| History.KeepNoteComparesOnlyLast | app.py:71 | a transcript equal to an older note that is not the last is still appended, so that note now occurs once more |
| History.KeepNoteRepeatsOlderNote | app.py:71-72 | illustration of `KeepNoteComparesOnlyLast`: `["a","b"]` followed by `"a"` gives `["a","b","a"]` |
| History.KeepNoteIdempotent | app.py:70-72 | keeping the same transcript twice in a row gives the same history as keeping it once |
| History.KeepNoteTwoDifferent | app.py:70-72 | two different transcripts, one after the other, the first unlike the current last note, add two notes in order |
| History.KeepNotePreservesNoAdjacentDuplicates | app.py:70-72 | if no two adjacent notes are equal before the append, that still holds after it |
| History.NothingHeardChangesNothing | app.py:59-65 | no buffer, an empty buffer (both falsy for `if audio_bytes:`) or an empty transcript leaves the history unchanged |
| History.FailureIsKeptLikeTranscript | app.py:41-42 | a failed transcription is deduplicated and stored as its error string, and is never skipped as empty |
| History.HeardTranscriptIsLast | app.py:65-72 | after a pass that hears a non-empty transcript, that transcript is the last note, whether it was appended or already last |
| History.RerunIsIdempotent | app.py:59-72 | running the script twice on the same buffer gives the same history as running it once, given that the recogniser gives the same outcome for the same buffer |
| History.AfterRecordingPreservesNoAdjacentDuplicates | app.py:59-72 | one pass keeps the history free of adjacent duplicates |
| History.Replay | app.py:59-72 | the page run once per buffer, in order: the earlier history stays a prefix, and each run adds at most one note |
| History.ReplayPreservesNoAdjacentDuplicates | app.py:59-72 | no series of runs over buffers stores the same note twice in a row |
| History.ReplayAddsOnlyHeard | app.py:59-72 | every note added over a series of runs is non-empty and is the transcript of one of the buffers |
| Listing.Shown | app.py:77-83 | the placeholder exactly when the history is empty; otherwise one item per note, item `k` (0-based) being `notes[len - 1 - k]` numbered `len - k` |
| Listing.Reversed | app.py:78 | `reversed` has the same length, and element `k` is element `len - 1 - k` of the input |
| Listing.ShownOrder | app.py:77-81 | the first item is the newest note numbered `len`, the last is the oldest numbered 1, and each number is one less than the one before |
| Listing.ShownLabelIsPosition | app.py:78-79 | note `j` (0-based, oldest first) is shown under number `j + 1` |
| Listing.AppendShownFirst | app.py:72-79 | after an append, the new note is shown first under the next number and every older note keeps its number |
| Listing.Render | app.py:77-83 | the page's loop produces exactly the listing `Shown` |
| Session.NoteHistory.constructor | app.py:12-13 | a new session starts with an empty history |
| Session.NoteHistory.Process | app.py:59-72 | the new history is `AfterRecording` of the old one: unchanged on a repeat of the last note, on no audio or on an empty transcript, otherwise the transcript appended; keeps "no adjacent duplicates" |
| Session.NoteHistory.Show | app.py:77-83 | the listing of the current notes, which is the placeholder exactly when there are none |
| Session.RecordTwiceThenAnother | app.py:59-83 | one clip heard twice, then a failed clip, gives two notes, listed newest first as 2 and 1 |

## Left out

- Page setup, title, headings, spinners, `st.audio`, `st.success`, `st.info` and all markdown/caption text: these are UI. Only the order, the numbers and the notes of the history section are modelled.
- The `audio_recorder` widget: it is a foreign UI component. It appears only as an optional byte buffer.
- Loading the Whisper model, `@st.cache_resource` and the inside of `model.transcribe`: these are ML library calls. The result is an uninterpreted `Outcome`, given by a pure function of the buffer. So the model assumes the same clip transcribes to the same text on every rerun; `RerunIsIdempotent` depends on this.
- The temporary WAV file in `transcribe_audio`: creating, writing and deleting it is file-system I/O. An exception raised while writing the file (outside the `try`) is not modelled.
- Exception messages: `str(e)` is taken as any string `msg`. Python's formatting of exceptions is not modelled.
- Other state: `app.py` keeps no state other than `st.session_state.notes`, so the history is the whole of the model's state.
- The failed-transcription case: `app.py` stores a failed transcription's error text as a note, and the model does the same (`FailureIsKeptLikeTranscript`, `ErrorTextIsAmbiguous`). Nothing tells such a note apart from a real transcript.
