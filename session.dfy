/** The session state of the page: the list of notes that survives reruns of
    the script, filled by one recording at a time and shown as a listing. */
module Session {
  import opened Transcription
  import opened History
  import Listing

  class NoteHistory {
    /** `st.session_state.notes`, oldest first. */
    var notes: seq<string>

    /** The history never holds the same note twice in a row. */
    ghost predicate Valid()
      reads this
    {
      NoAdjacentDuplicates(notes)
    }

    /** A new session starts with no notes. */
    constructor ()
      ensures Valid() && notes == []
    {
      notes := [];
    }

    /** Handles one pass of the page: transcribe the buffer if there is one,
        and keep a non-empty transcript unless it repeats the last note.
        Returns the transcript when the recogniser ran. */
    method Process(audio: Option<Audio>, recognise: Audio -> Outcome) returns (transcript: Option<string>)
      requires Valid()
      modifies this
      ensures Valid()
      ensures transcript == Heard(audio, recognise)
      ensures notes == AfterRecording(old(notes), audio, recognise)
      ensures transcript.Some? && transcript.value != "" && old(notes) != [] && Last(old(notes)) == transcript.value
              ==> notes == old(notes)
      ensures transcript.Some? && transcript.value != "" && (old(notes) == [] || Last(old(notes)) != transcript.value)
              ==> notes == old(notes) + [transcript.value]
      ensures (transcript.None? || transcript.value == "") ==> notes == old(notes)
    {
      transcript := None;
      if audio.Some? && |audio.value| > 0 {
        var t := TranscriptText(recognise(audio.value));
        transcript := Some(t);
        if t != "" {
          if notes == [] || notes[|notes| - 1] != t {
            KeepNotePreservesNoAdjacentDuplicates(notes, t);
            notes := notes + [t];
          }
        }
      }
    }

    /** The history section for the current notes. The second clause repeats,
        for callers of the class, the placeholder case of `Listing.Shown`. */
    method Show() returns (d: Listing.Display)
      ensures d == Listing.Shown(notes)
      ensures d == Listing.Placeholder <==> notes == []
    {
      d := Listing.Render(notes);
    }
  }

  /** A client of the class: a fresh session that hears the same recording
      twice and then a different one holds two notes, shown newest first. */
  method RecordTwiceThenAnother(a: Audio, b: Audio, recognise: Audio -> Outcome) returns (d: Listing.Display)
    requires |a| > 0 && |b| > 0
    requires recognise(a) == Recognised("xin chao") && recognise(b) == Failed("no audio")
    ensures d == Listing.Items([Listing.Entry(2, ErrorPrefix + "no audio"), Listing.Entry(1, "xin chao")])
  {
    var h := new NoteHistory();
    var t := h.Process(Some(a), recognise);
    t := h.Process(Some(a), recognise);
    assert h.notes == ["xin chao"];
    t := h.Process(Some(b), recognise);
    assert h.notes == ["xin chao", ErrorPrefix + "no audio"];
    d := h.Show();
  }
}
