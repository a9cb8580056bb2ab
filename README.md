# Bard answer sessions, modelled in Dafny

This project models the answer-session logic of the `Bard` type in `main.go`. It is the part of the chat server that talks to the conversational backend. The model covers four things.

- **The conversation handle.** Three answer slots, a cursor `currAnswer` over them and a count `numAnswers`. Cyclic navigation `Next`/`Prev`, `Reset`, and the getters.
- **The request envelope.** The inner array `[[prompt], null, [conversationID, responseID, choiceID]]` of the slot under the cursor is serialised with `json.Marshal`. The result is embedded as a string in `[null, "<inner>"]` and serialised again. Two form fields and three query parameters go with it.
- **The response applier.** `doAsk` takes line 3 of the reply body and decodes it as `[][]interface{}`. Element `[0][2]` is the text of a second JSON document, read with gjson at the index paths `1.0`, `1.1` and `4`. The applier writes ids and candidates into the slots in the order the source does.
- **Small helpers.**
  - The anti-forgery token scanner for `SNlM0e":"(.*?)"`.
  - `random(i)`, which draws short share ids.
  - The share-id check `^[a-zA-Z0-9]+$`, compiled with POSIX flags, so that `^` and `$` match at line boundaries.
  - The selection of a category template for a prompt.

Modules, in dependency order:

- `Base`: shared values.
  - `Answer`: one slot.
  - `Conversation`: the slots, cursor and count as one value.
  - `Exchange`: the result of one HTTP round trip.
  - `AskError`: the ways a turn fails.
- `Json`: the JSON subset `Null | Bool | Num | Str | Arr`.
  - A serialiser that escapes strings as Go's `Marshal` does (section 7 of RFC 8259, plus Go's HTML-safe escapes, with the short forms `\b` and `\f` that `Marshal` writes from Go 1.22 on).
  - A parser that follows `Unmarshal` on this subset. `Parse(Serialize(j)) == Some(j)` is proved for every value whose number literals are well-formed.
- `GJson`: `Get` by index path, `Result.String()` and `Result.Array()`.
- `Token`: the token scanner and `getSnim0eValue`'s status checks.
- `Envelope`: `createSession`, `createRequest`, `createFormData`, `createBatchExecuteReqParams`.
- `Response`: line splitting, the outer rows, candidate shapes, and `Respond`, the functional specification of `doAsk`.
- `Session`: the `Bard` class over a three-element array.
  - Its methods change the fields in place.
  - Each method is proved against `Respond` / `AskSpec` or the cursor functions `NextIndex`/`PrevIndex`.
- `Share`: `random`, the share-id check as written, and the whole-text check it evidently intends.
- `Templates`: the category templates and the question they produce.

The network is replaced by inputs:

- The token page and the POST reply are `Exchange` values.
- The request-id draw `mrand.Intn(999999)` is a number `draw < 999999`.
- The bytes `crypto/rand` reads are a sequence of bytes.

Six places where the code behaves in a way a reader might not expect; the model follows the code:

- **The count is not capped.** `numAnswers` is the full number of candidates. Only the slots are capped at three (main.go:377-382).
- **The cursor reset is late.** The cursor is reset at the start of `doAsk` (main.go:332), after the token fetch. A failed token fetch therefore leaves the cursor where it was. The envelope is built from the slot under the cursor as it was before the call.
- **Ids are written early.** The new conversation and response ids are written to all three slots before the candidate list is checked (main.go:364-374). A turn with no candidates thus changes the ids and still fails.
- **`_reqid` can have seven digits.** It is `draw + 100000`, written as six digits for draws below 900000 and seven from there on. The code comment speaks of four random digits.
- **Unguarded indexing is an error result.** Where the source indexes without a guard, Go panics. The model returns `Malformed` and keeps the writes made before that point. These are a body of fewer than four lines, a line that decodes to no rows at all, a first row shorter than three elements, and a candidate without a first element or without content (main.go:349, 359, 386-387). The net/http server recovers a handler's panic, so the `Bard` value keeps those writes.
- **The share-id check works line by line.** `regexp.MustCompilePOSIX` does not set Go's `OneLine` flag, so `^` and `$` match at each newline (main.go:735). An id passes as soon as one of its lines is all letters and digits, and the other lines may hold `/` or `..`. It is recorded under "## Findings".

## Model

| member | source | states |
|---|---|---|
| Session.Bard.constructor | main.go:103-117 | `New`: three empty slots, cursor 0, count 0, the two credentials kept |
| Session.Bard.Next | main.go:168-177 | the cursor becomes `NextIndex` of the old cursor (0→1→2→0); the slots and the count stay |
| Session.Bard.Prev | main.go:180-189 | the cursor becomes `PrevIndex` of the old cursor (0→2→1→0); the slots and the count stay |
| Session.CursorRing | main.go:168-189 | `Prev` undoes `Next` and the reverse; three steps either way return to the start |
| Session.Bard.Reset | main.go:192-197 | all three slots are empty and the cursor is 0; `numAnswers` is unchanged |
| Session.Bard.GetAnswer | main.go:151-153 | the content of the slot under the cursor |
| Session.Bard.NextAnswer | main.go:156-159 | moves forward, then returns the content of slot `NextIndex(old cursor)` |
| Session.Bard.PrevAnswer | main.go:162-165 | moves back, then returns the content of slot `PrevIndex(old cursor)` |
| Session.Bard.GetNumOfAnswers | main.go:200-202 | the count of the last turn that had candidates, never negative |
| Session.Bard.AllAnswers | main.go:212-218 | the three slots, in slot order |
| Session.Bard.DoAsk | main.go:331-391 | slots, cursor, count and error are exactly those `Respond` gives for the old state and the POST result |
| Session.Bard.WriteIds | main.go:364-367 | every slot takes the new conversation and response ids; its choice id and content stay |
| Session.Bard.WriteCandidates | main.go:385-388 | the slots and the success flag are those of `Fill` on the old slots |
| Session.Bard.Ask | main.go:120-148 | state, error and request sent are those of `AskSpec` |
| Session.AskSpec | main.go:120-148 | the state stays valid; a failed token fetch returns its error with the state unchanged and nothing sent; otherwise exactly one request is sent with the token as `at`, and the outcome is that of `Respond` |
| Session.AskTokenFailure | main.go:126-129 | a failed token fetch returns its error, sends nothing and leaves the whole state, the cursor included, unchanged |
| Session.AskEnvelope | main.go:126-147 | after a fetched token the form has exactly `f.req` and `at`; `at` is the token; `f.req` decodes twice to the prompt and the ids of the slot under the cursor before the call; `_reqid` is `draw + 100000`; the state is `Respond`'s, with cursor 0 |
| Token.FindToken | main.go:246-267 | a result is the text of the leftmost match of `SNlM0e":"…"`, with no quote or newline in it; no result exactly when nothing matches |
| Token.ScanFrom | main.go:246 | the start and the closing quote of the first match at or after a position, with no match between that position and it; none exactly when no position from there matches |
| Token.FetchToken | main.go:257-267 | a failed GET is a transport error; a status other than 200 is reported with its code; a page without a match is `TokenNotFound`; otherwise the token |
| Token.TokenAmidText | main.go:263-267 | a page with the marker, a quote-free and newline-free token and a closing quote, and no earlier match, yields that token whatever follows |
| Json.EscapeRoundTrip | main.go:284-301 | the escaped text of any string, followed by a closing quote, decodes back to that string and leaves what follows |
| Json.RoundTrip | main.go:284-301 | decoding the serialisation of any value with well-formed numbers gives that value back |
| Json.Parse | main.go:353 | a decoded value has only well-formed number literals |
| Json.Serialize | main.go:284-301 | `json.Marshal` of the subset: a literal is `null`, `true` or `false`; a string is written between quotes; an array between brackets; `Json.RoundTrip` states that decoding the text gives the value back |
| Json.SerializeOneLine | main.go:284-301 | a serialised value never holds a newline |
| GJson.Load | main.go:365 | a text that decodes as JSON is read as that document; any other text is read as null, which holds nothing at any path |
| GJson.Get | main.go:365-387 | `gjson.Get` with an index path: the empty path is the document itself; a first step into something that is not an array, or past its end, is missing |
| GJson.StringOf | main.go:365-387 | `Result.String()`: a missing value and null give the empty string; a string gives its contents |
| GJson.ArrayOf | main.go:365-387 | `Result.Array()`: a missing value and null give no elements; an array gives its elements; any other value is a one-element list |
| GJson.GetConcat | main.go:365-369 | following a path in two parts is the same as following the whole path |
| Envelope.CreateSession | main.go:271-290 | the exact text `[["<prompt>"],null,["<conv>","<resp>","<choice>"]]` with each string escaped; it decodes to the inner array and holds no newline |
| Envelope.CreateRequest | main.go:293-307 | the exact text `[null,"<session>"]`; it decodes to null and a string equal to the session text |
| Envelope.EnvelopeRoundTrip | main.go:271-307 | decoding the request, then its string element, returns the prompt and the three ids that went in |
| Envelope.CreateFormData | main.go:310-320 | exactly the keys `f.req` and `at`, holding the request and the token |
| Envelope.Decimal | main.go:326 | `fmt.Sprintf("%d", n)`: a non-empty run of decimal digits, with a leading `0` only for zero |
| Envelope.DecimalRoundTrip | main.go:326 | the decimal text of a number reads back as that number |
| Envelope.DecimalLength | main.go:326 | a number from `10^(k-1)` to below `10^k` is written with `k` digits |
| Envelope.CreateBatchExecuteReqParams | main.go:323-329 | exactly `bl`, `_reqid`, `rt`; `bl` is the build label; `rt` is `c`; `_reqid` is all digits, reads as `draw + 100000`, and has 6 digits below a draw of 900000 and 7 after |
| Response.Split | main.go:349 | at least one piece, none holding a newline |
| Response.SplitJoin | main.go:349 | joining the pieces of a split with newlines gives the text back |
| Response.JoinSplit | main.go:349 | splitting newline-free lines joined with newlines gives the lines back |
| Response.Rows | main.go:352-356 | `Unmarshal` into `[][]interface{}`: null is no rows; an array is accepted exactly when every element is null or an array, each giving its row; anything else is refused |
| Response.Payload | main.go:349-362 | fewer than four lines is `Malformed`; a line that is not JSON rows is `UnmarshalError`; rows that are empty, or a first row shorter than three elements, are `Malformed`; a third element that is not a string is `NoAnswer`; success exactly when line 3 is an array of rows whose first row has a string third element, and that string is the result |
| Response.FirstMalformed | main.go:386-387 | the candidates before it all have a choice id and content, and it does not |
| Response.Fill | main.go:385-388 | the loop as a function: the slots keep their number; what is written where is stated by `Response.FillEffect` |
| Response.ChoiceOf | main.go:386 | the choice id is the contents of the candidate's first element when it is a string, and empty when it is null |
| Response.ContentOf | main.go:387 | the content is the contents of the first element of the candidate's second element when it is a string, and empty when it is null |
| Response.ConversationIdOf | main.go:365 | `gjson.Get(doc, "1.0").String()`: the contents of the first element of the array at index 1 when it is a string, empty when it is null or missing |
| Response.ResponseIdOf | main.go:366 | `gjson.Get(doc, "1.1").String()`: the contents of the second element of the array at index 1 when it is a string, empty when it is null or missing |
| Response.CandidatesOf | main.go:369 | `gjson.Get(doc, "4").Array()`: no candidates when index 4 is missing or null, the elements of an array there, any other value as one candidate |
| Response.IdsFromPair | main.go:365-369 | the conversation id and the response id are the first and second elements of the one value at index 1 |
| Response.FillEffect | main.go:385-388 | (as `FillResult`) candidates before the first malformed one are written whole; a malformed one with a first element gets its choice id; every other slot is unchanged; success exactly when no kept candidate is malformed |
| Response.Kept | main.go:380-382 | at most three candidates are kept, and they are the leading ones |
| Response.Respond | main.go:331-391 | after any reply the state is valid and the cursor is 0 |
| Response.TurnWithoutPayload | main.go:335-362 | a failed POST, a non-200 status or a payload error: the slots and the count stay, only the cursor becomes 0, and the error names the cause |
| Response.TurnNoCandidates | main.go:364-374 | an empty candidate list is `NoCandidates`; the count stays, yet every slot already has the new ids |
| Response.TurnWithCandidates | main.go:364-391 | the count is the uncapped number of candidates; every slot has the new ids; slots up to the first malformed candidate hold their candidates; slots past the kept ones keep their choice id and content; success exactly when no kept candidate is malformed |
| Response.TurnBeyondCapacity | main.go:377-388 | more than three well-formed candidates: success, a count above three, and the first three candidates in the slots |
| Response.BodyPayload | main.go:349-362 | a body built with a three-line preamble and a payload line yields the text of its second document |
| Response.TurnOfResponseBody | main.go:331-391 | applying a well-formed reply with candidates succeeds: the count is their number, slot `k` holds candidate `k` with the new ids, and later slots keep their choice and content; with no candidates it is `NoCandidates` with the count unchanged |
| Response.TwoCandidateExample | main.go:364-391 | for any conversation id `c`, response id `r` and two candidates (choice `x` with content `a`, choice `y` with content `b`), the reply succeeds with count 2 and cursor 0; slots 0 and 1 hold the two candidates with the new ids, and slot 2 has only its ids replaced |
| Share.Random | main.go:708-718 | the id is the bytes mapped to `alphanum[b % 62]`; it has length `i` and only alphabet characters |
| Share.IdOf | main.go:713 | one character per byte, the byte's `alphanum[b % 62]`, which is always a letter or a digit |
| Share.AlphanumIsClass | main.go:704 | the 62-character alphabet holds each character of `[a-zA-Z0-9]` exactly once and nothing else |
| Share.MatchesShareId | main.go:735 | `MatchString` of the POSIX-compiled pattern: true exactly when some line of the id (a stretch from the start or a newline to the next newline or the end) is non-empty and all of `[a-zA-Z0-9]` |
| Share.LineEndFrom | main.go:735 | the end of the line holding a position: the first newline from there, or the end of the text |
| Share.MatchesWholeId | main.go:735 | the intended check: true exactly when the id is non-empty and every character is in `[a-zA-Z0-9]` |
| Share.OneLineAgree | main.go:735 | on an id without a newline, the check as written and the whole-text check agree |
| Share.RandomIdAccepted | main.go:735 | every id drawn from at least one byte passes both checks |
| Share.OtherCharRefused | main.go:735 | an id with a character outside the class fails the whole-text check, and fails the check as written when it has no newline |
| Share.NewlineIdAccepted | main.go:735 | the check as written accepts `abc` newline `../x`, which holds a `/`, and the whole-text check refuses it |
| Templates.Format | main.go:675 | `fmt.Sprintf` with one `%s`: a format without `%s` comes back unchanged; `Templates.FormatAt` states where the argument goes |
| Templates.FormatAt | main.go:675 | formatting `pre%spost`, where `pre` has no `%`, puts the argument between `pre` and `post` |
| Templates.TemplateShape | main.go:42-46 | each template is its preamble followed by a single `%s`, and no preamble holds a `%` |
| Templates.Question | main.go:670-677 | a known category gives its preamble followed by the prompt; `general`, an unknown category and the empty category give the prompt alone |

## Findings

| source | as written | input that shows it | evidently intended | confidence | as-written member | corrected member |
|---|---|---|---|---|---|---|
| main.go:735 | the pattern is compiled with POSIX flags, which leave out `OneLine`; `^` and `$` then match at every line boundary, so an id passes when any one of its lines is all letters and digits | the id `abc` newline `../x` (query `id=abc%0A..%2Fx`) passes, and is put into the file name `chat.%s.enc` at main.go:740 | an id passes only when the whole id is one or more letters and digits | not executed; follows the flag definitions of Go's `regexp/syntax` | Share.NewlineIdAccepted | Share.MatchesWholeId |

## Left out

- The HTTP server is not modelled: its handlers, routing, inline HTML, CSS and JavaScript, and `main`. They are I/O and user interface.
- The resty client is not modelled: `createRestClient`, the headers, cookies, base URLs and timeouts. The GET and the POST are inputs of type `Exchange`.
- A failed body read (main.go:344-348) is folded into `Exchange.Failed`, so it shows up as `TransportError`.
- The process-wide `bards` map and its `sync.RWMutex` are not modelled. They exist for sharing across concurrent requests.
- `mu.Save`/`mu.Load` storage, the markdown rendering and `Logger` are not modelled. They are foreign code or printing.
- `crypto/rand` and `math/rand` are not modelled. Their output is an input, and an error from `rand.Read` is not modelled.
- The unreachable `uuid.New()` fallback of `random` is not modelled, since control never reaches it.
- Answer pointers are values in the model. `getAllAnswers` returns copies, and `Reset` overwrites slots rather than allocating fresh `Answer` records. No caller keeps a pointer across calls, so identity is not observable.
- JSON objects are outside the JSON model. A body line with an object anywhere is refused as `UnmarshalError`, where Go would accept an object inside a row. A second document with objects is read as holding nothing.
- Response.Payload: `Unmarshal` errors for numbers out of the float64 range are not modelled. Number literals are kept as text.
- GJson.Load: gjson reads text that is not valid JSON leniently. The model reads such text as a document with nothing at any path.
- GJson.StringOf: for a number, the model gives its literal text. gjson does the same only for integer literals; it reformats others as float64. For an array, the model gives its re-serialisation with `Marshal`'s escaping, where gjson gives the raw source text. The two differ whenever the source text has whitespace or writes a string differently from `Marshal`, for example `\/`, `\u0041` or a raw `<`.
- `json.Marshal` errors (main.go:285-287, 302-304) cannot happen for arrays of strings and nulls. They are not modelled.
- Strings are sequences of Unicode scalar values. Go's handling of invalid UTF-8 in strings is not modelled.
- Templates.Format: models `fmt.Sprintf` only for formats with one `%s`, which all three templates are. Other verbs and the missing/extra argument markers are not modelled.
