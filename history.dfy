/** The note history as a value: the guarded, de-duplicating append that one
    pass of the page performs, and what repeated passes do to the history. */
module History {
  import opened Transcription

  /** The most recent note (`notes[-1]`). */
  function Last(notes: seq<string>): string
    requires notes != []
  {
    notes[|notes| - 1]
  }

  /** No note equals the one right after it. */
  predicate NoAdjacentDuplicates(notes: seq<string>)
  {
    forall i :: 0 < i < |notes| ==> notes[i - 1] != notes[i]
  }

  /** The de-duplicating append: the transcript is added at the end unless it
      equals the current last note. Only the last note is compared. */
  function KeepNote(notes: seq<string>, t: string): (r: seq<string>)
    ensures notes <= r && |r| <= |notes| + 1
    ensures r != [] && Last(r) == t
  {
    if notes == [] || Last(notes) != t then notes + [t] else notes
  }

  /** The history after one pass of the page: a recording is transcribed, and
      a non-empty transcript is kept by `KeepNote`. */
  function AfterRecording(notes: seq<string>, audio: Option<Audio>, recognise: Audio -> Outcome): (r: seq<string>)
    ensures notes <= r && |r| <= |notes| + 1
    ensures r != notes ==> Heard(audio, recognise).Some? && r == notes + [Heard(audio, recognise).value]
  {
    match Heard(audio, recognise)
    case None => notes
    case Some(t) => if t != "" then KeepNote(notes, t) else notes
  }

  /** The history after the page has run once per buffer, in order: each
      rerun of the script is one `AfterRecording`. The earlier history stays
      a prefix, and each run adds at most one note. */
  function Replay(notes: seq<string>, audios: seq<Option<Audio>>, recognise: Audio -> Outcome): (r: seq<string>)
    ensures notes <= r
    ensures |r| <= |notes| + |audios|
    decreases |audios|
  {
    if audios == [] then notes
    else AfterRecording(Replay(notes, audios[..|audios| - 1], recognise), audios[|audios| - 1], recognise)
  }

  /** The transcript `t` was heard from one of the buffers. */
  ghost predicate HeardFrom(t: string, audios: seq<Option<Audio>>, recognise: Audio -> Outcome)
  {
    exists j :: 0 <= j < |audios| && Heard(audios[j], recognise) == Some(t)
  }

  // ----- one append -----

  /** A transcript equal to the last note leaves the history unchanged, and
      that is the only way the history stays unchanged. */
  lemma KeepNoteUnchangedIff(notes: seq<string>, t: string)
    ensures KeepNote(notes, t) == notes <==> (notes != [] && Last(notes) == t)
  {
    if notes == [] || Last(notes) != t {
      assert |KeepNote(notes, t)| == |notes| + 1;
    }
  }

  /** On an empty history, or a transcript that differs from the last note,
      exactly that transcript is added at the end and nothing before it moves. */
  lemma KeepNoteAppends(notes: seq<string>, t: string)
    requires notes == [] || Last(notes) != t
    ensures KeepNote(notes, t) == notes + [t]
    ensures |KeepNote(notes, t)| == |notes| + 1
    ensures forall i :: 0 <= i < |notes| ==> KeepNote(notes, t)[i] == notes[i]
  {
  }

  /** Only the last note is compared: a transcript seen earlier in the history,
      but not last, is added again. */
  lemma KeepNoteComparesOnlyLast(notes: seq<string>, t: string, i: nat)
    requires i < |notes| - 1 && notes[i] == t && Last(notes) != t
    ensures KeepNote(notes, t) == notes + [t]
    ensures multiset(KeepNote(notes, t))[t] == multiset(notes)[t] + 1
  {
  }

  /** An illustration of the same: "a", "b", then "a" again gives three notes. */
  lemma KeepNoteRepeatsOlderNote()
    ensures KeepNote(["a", "b"], "a") == ["a", "b", "a"]
  {
  }

  /** Keeping the same transcript twice in a row is keeping it once. */
  lemma KeepNoteIdempotent(notes: seq<string>, t: string)
    ensures KeepNote(KeepNote(notes, t), t) == KeepNote(notes, t)
  {
  }

  /** Two different transcripts, one after the other, give two new notes. */
  lemma KeepNoteTwoDifferent(notes: seq<string>, t: string, u: string)
    requires t != u && (notes == [] || Last(notes) != t)
    ensures KeepNote(KeepNote(notes, t), u) == notes + [t, u]
  {
  }

  /** The append keeps the history free of adjacent duplicates. */
  lemma KeepNotePreservesNoAdjacentDuplicates(notes: seq<string>, t: string)
    requires NoAdjacentDuplicates(notes)
    ensures NoAdjacentDuplicates(KeepNote(notes, t))
  {
    var r := KeepNote(notes, t);
    forall i | 0 < i < |r|
      ensures r[i - 1] != r[i]
    {
      if i < |notes| {
        assert r[i - 1] == notes[i - 1] && r[i] == notes[i];
      }
    }
  }

  // ----- one pass of the page -----

  /** No buffer, an empty buffer, or an empty transcript leave the history as
      it was. */
  lemma NothingHeardChangesNothing(notes: seq<string>, audio: Option<Audio>, recognise: Audio -> Outcome)
    requires !HasAudio(audio) || TranscriptText(recognise(audio.value)) == ""
    ensures AfterRecording(notes, audio, recognise) == notes
  {
  }

  /** A failed transcription is kept exactly as a recognised text equal to
      its error string would be: with the same dedup rule, never skipped as
      empty. */
  lemma FailureIsKeptLikeTranscript(notes: seq<string>, audio: Option<Audio>, recognise: Audio -> Outcome, msg: string)
    requires HasAudio(audio) && recognise(audio.value) == Failed(msg)
    ensures AfterRecording(notes, audio, recognise) == KeepNote(notes, ErrorPrefix + msg)
    ensures AfterRecording(notes, audio, recognise) != []
    ensures Last(AfterRecording(notes, audio, recognise)) == ErrorPrefix + msg
  {
  }

  /** A pass that hears a non-empty transcript ends with that transcript as
      the last note, whether it was appended or already there. */
  lemma HeardTranscriptIsLast(notes: seq<string>, audio: Option<Audio>, recognise: Audio -> Outcome)
    requires HasAudio(audio) && TranscriptText(recognise(audio.value)) != ""
    ensures AfterRecording(notes, audio, recognise) != []
    ensures Last(AfterRecording(notes, audio, recognise)) == TranscriptText(recognise(audio.value))
  {
  }

  /** The page re-run on the same buffer, as happens when it reloads without a
      new recording, does not add a second note. */
  lemma RerunIsIdempotent(notes: seq<string>, audio: Option<Audio>, recognise: Audio -> Outcome)
    ensures AfterRecording(AfterRecording(notes, audio, recognise), audio, recognise)
         == AfterRecording(notes, audio, recognise)
  {
    if HasAudio(audio) && TranscriptText(recognise(audio.value)) != "" {
      KeepNoteIdempotent(notes, TranscriptText(recognise(audio.value)));
    }
  }

  /** One pass keeps the history free of adjacent duplicates. */
  lemma AfterRecordingPreservesNoAdjacentDuplicates(notes: seq<string>, audio: Option<Audio>, recognise: Audio -> Outcome)
    requires NoAdjacentDuplicates(notes)
    ensures NoAdjacentDuplicates(AfterRecording(notes, audio, recognise))
  {
    if HasAudio(audio) {
      KeepNotePreservesNoAdjacentDuplicates(notes, TranscriptText(recognise(audio.value)));
    }
  }

  // ----- many passes -----

  /** No series of passes adds the same note twice in a row. */
  lemma {:induction false} ReplayPreservesNoAdjacentDuplicates(notes: seq<string>, audios: seq<Option<Audio>>, recognise: Audio -> Outcome)
    requires NoAdjacentDuplicates(notes)
    ensures NoAdjacentDuplicates(Replay(notes, audios, recognise))
    decreases |audios|
  {
    if audios != [] {
      var front := audios[..|audios| - 1];
      ReplayPreservesNoAdjacentDuplicates(notes, front, recognise);
      AfterRecordingPreservesNoAdjacentDuplicates(Replay(notes, front, recognise), audios[|audios| - 1], recognise);
    }
  }

  /** Every note added by a series of passes is the non-empty transcript of
      one of the buffers. */
  lemma {:induction false} ReplayAddsOnlyHeard(notes: seq<string>, audios: seq<Option<Audio>>, recognise: Audio -> Outcome)
    ensures forall i :: |notes| <= i < |Replay(notes, audios, recognise)| ==>
      Replay(notes, audios, recognise)[i] != "" && HeardFrom(Replay(notes, audios, recognise)[i], audios, recognise)
    decreases |audios|
  {
    if audios != [] {
      var front := audios[..|audios| - 1];
      var last := audios[|audios| - 1];
      var before := Replay(notes, front, recognise);
      var after := Replay(notes, audios, recognise);
      ReplayAddsOnlyHeard(notes, front, recognise);
      forall i | |notes| <= i < |after|
        ensures after[i] != "" && HeardFrom(after[i], audios, recognise)
      {
        if i < |before| {
          var j :| 0 <= j < |front| && Heard(front[j], recognise) == Some(before[i]);
          assert audios[j] == front[j];
        } else {
          assert after == before + [Heard(last, recognise).value];
          assert audios[|audios| - 1] == last;
        }
      }
    }
  }
}
