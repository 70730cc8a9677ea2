/** The transcription step of one recording: the speech recogniser is an
    uninterpreted outcome, and `TranscriptText` is the conversion of that
    outcome to the one string the page works with. */
module Transcription {

  /** One byte of the recorded WAV buffer. */
  newtype byte = x: int | 0 <= x < 256

  type Audio = seq<byte>

  /** What the widget hands over: nothing yet, or a (possibly empty) buffer. */
  datatype Option<+T> = None | Some(value: T)

  /** What the recogniser produces for one buffer: the recognised text, or the
      message of the exception it raised. */
  datatype Outcome = Recognised(text: string) | Failed(msg: string)

  /** The text put in front of an exception message ("Error: " in Vietnamese). */
  const ErrorPrefix: string := "Lỗi: "

  /** A buffer is processed only when it is present and non-empty (a Python
      `bytes` value is falsy when it is empty). */
  predicate HasAudio(audio: Option<Audio>)
  {
    audio.Some? && |audio.value| > 0
  }

  /** The string `transcribe_audio` returns for an outcome: the recognised text
      as it is, or the prefix followed by the error message. */
  function TranscriptText(o: Outcome): (t: string)
    ensures o.Recognised? ==> t == o.text
    ensures o.Failed? ==> |t| == |ErrorPrefix| + |o.msg| && t != ""
    ensures o.Failed? ==> t[..|ErrorPrefix|] == ErrorPrefix && t[|ErrorPrefix|..] == o.msg
  {
    match o
    case Recognised(text) => text
    case Failed(msg) => ErrorPrefix + msg
  }

  /** The transcript of one pass of the page, if the recogniser ran at all. */
  function Heard(audio: Option<Audio>, recognise: Audio -> Outcome): Option<string>
  {
    if HasAudio(audio) then Some(TranscriptText(recognise(audio.value))) else None
  }

  /** The returned string does not tell a failure from a recogniser that
      happened to say the prefix: both outcomes give the same text. */
  lemma ErrorTextIsAmbiguous(msg: string)
    ensures Recognised(ErrorPrefix + msg) != Failed(msg)
    ensures TranscriptText(Recognised(ErrorPrefix + msg)) == TranscriptText(Failed(msg))
  {
  }
}
