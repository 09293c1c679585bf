/** Constants shared by the generators: voice identifiers, the synthesis
    model and its settings, and the loudness target. */
module Config {

  /** ElevenLabs voice used for ERIC by every Strollcast generator. */
  const EricVoice: string := "gP8LZQ3GGokV0MP5JYjg"
  /** ElevenLabs voice used for MAYA (the "Rachel" voice). */
  const MayaVoice: string := "21m00Tcm4TlvDq8ikWAM"
  /** ElevenLabs voice used for ALEX in the ZeRO episode generator. */
  const AlexVoice: string := "pNInz6obpgDQGcFmaJgB"

  /** The serverless generator's speaker-to-voice table. */
  const Voices: map<string, string> := map["ERIC" := EricVoice, "MAYA" := MayaVoice]

  const ModelId: string := "eleven_turbo_v2_5"

  /** Voice settings as Python renders the floats in JSON. */
  const Stability: string := "0.5"
  const SimilarityBoost: string := "0.75"
  const Style: string := "0.0"

  /** Integrated-loudness target in LUFS. */
  const TargetLufs: int := -16
}
