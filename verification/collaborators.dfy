/**
 * The external collaborators of the application, reduced to what the
 * session logic sees of them: an opaque knowledge-base handle, the uploaded
 * documents, and the outcome of one speech-recognition attempt.
 */
module Collaborators {

  /** An uploaded PDF file; its contents are only ever passed on. */
  datatype Document = Document(name: string, content: seq<bv8>)

  /** The similarity index built from the uploads. Extraction, chunking,
      embedding and indexing happen outside the model; the handle only has
      an identity. */
  datatype KnowledgeBase = KnowledgeBase(handle: nat)

  /** Builds the knowledge base from the uploaded documents. */
  type Builder = seq<Document> -> KnowledgeBase

  /** Retrieves passages for a question and generates an answer. */
  type Answerer = (KnowledgeBase, string) -> string

  /** What the speech recogniser reports for one utterance. */
  datatype Recognition =
    | Heard(text: string)
    | UnknownValue   // the speech could not be understood
    | RequestError   // the recognition service could not be reached

  /** The text the voice-input path submits: the recognised text, or the
      empty string for either recoverable failure. */
  function VoiceToText(r: Recognition): (text: string)
    ensures r.Heard? ==> text == r.text
    ensures !r.Heard? ==> text == ""
  {
    match r
    case Heard(t) => t
    case UnknownValue => ""
    case RequestError => ""
  }
}
