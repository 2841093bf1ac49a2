/** The labels the chat screen attaches to audio frames, transcripts and messages. */
module Labels {

  /** The two enrolled speakers, `'s1'` and `'s2'` in the source. */
  datatype Speaker = S1 | S2

  /** The author of a chat message: one of the two speakers, or the coach (`'bot'`). */
  datatype Sender = Human(speaker: Speaker) | Bot
}
