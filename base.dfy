/**
 * Values shared by the answer-session model of the `Bard` type (main.go):
 * an optional value, the outcome of one network exchange, the errors a turn
 * can end with, one answer slot and a snapshot of the whole conversation.
 */
module Base {

  datatype Option<+T> = None | Some(value: T)

  datatype Result<+T, +E> = Ok(value: T) | Err(error: E)

  /**
   * What one HTTP round trip produced, as seen by the session logic: either the
   * request failed (connection error, timeout, or the body could not be read),
   * or a response arrived with a status code and a body.
   */
  datatype Exchange =
    | Failed
    | Answered(status: int, body: string)

  /** The ways a turn can fail, in the order main.go checks for them. */
  datatype AskError =
    | TransportError          // the GET or POST returned an error, or the body read failed
    | UnexpectedStatus(code: int)  // a status code other than 200
    | TokenNotFound           // the page has no `SNlM0e":"…"` match
    | Malformed               // an index that Go does not guard is out of range (a runtime panic in Go)
    | UnmarshalError          // line 3 of the body is not JSON of the shape [][]interface{}
    | NoAnswer                // element [0][2] of that JSON is not a string
    | NoCandidates            // the candidate list at path "4" is empty

  /** One answer slot: the `Answer` struct. */
  datatype Answer = Answer(content: string, conversationID: string, responseID: string, choiceID: string)

  /** `&Answer{}`: every field is Go's zero value, the empty string. */
  const EmptyAnswer := Answer("", "", "", "")

  /** The number of answer slots, `maxNumOfAnswers`. */
  const MaxAnswers := 3

  /**
   * A snapshot of the mutable part of a `Bard`: the three slots, the cursor
   * `currAnswer` and the count `numAnswers`.
   */
  datatype Conversation = Conversation(slots: seq<Answer>, cursor: int, count: int) {
    predicate Valid() {
      |slots| == MaxAnswers && 0 <= cursor < MaxAnswers && count >= 0
    }
  }

  /** The outcome of an operation: the new snapshot and the error it returned, if any. */
  datatype Outcome = Outcome(state: Conversation, err: Option<AskError>)
}
