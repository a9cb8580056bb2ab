/**
 * The `Bard` conversation handle: three answer slots, the cursor over them
 * and the count of the last turn, with the navigation, reset and ask
 * operations that change them in place.
 */
module Session {
  import opened Base
  import opened Json
  import opened Token
  import opened Envelope
  import opened Response

  /** The slot after `c` on the ring 0 -> 1 -> 2 -> 0. */
  function NextIndex(c: int): (n: int)
    requires 0 <= c < MaxAnswers
    ensures 0 <= n < MaxAnswers
  {
    (c + 1) % MaxAnswers
  }

  /** The slot before `c` on the ring 0 -> 2 -> 1 -> 0. */
  function PrevIndex(c: int): (n: int)
    requires 0 <= c < MaxAnswers
    ensures 0 <= n < MaxAnswers
  {
    (c + MaxAnswers - 1) % MaxAnswers
  }

  /**
   * The two moves undo each other, and three moves in one direction come
   * back to the start.
   */
  lemma CursorRing(c: int)
    requires 0 <= c < MaxAnswers
    ensures PrevIndex(NextIndex(c)) == c && NextIndex(PrevIndex(c)) == c
    ensures NextIndex(NextIndex(NextIndex(c))) == c
    ensures PrevIndex(PrevIndex(PrevIndex(c))) == c
  {
  }

  /** What one ask sends: the form fields and the query parameters. */
  datatype Request = Request(form: map<string, string>, query: map<string, string>)

  /**
   * `Ask` with the token page, the request-id draw and the POST result as
   * inputs. A failed token fetch returns before anything changes or is sent.
   * Otherwise the envelope is built from the slot under the cursor as it was
   * before the call, and the reply is applied as in `Respond`.
   */
  function AskSpec(before: Conversation, prompt: string, page: Exchange, draw: nat, post: Exchange): (r: (Outcome, Option<Request>))
    requires before.Valid() && draw < 999999
    ensures r.0.state.Valid()
    ensures FetchToken(page).Err? ==> r.0 == Outcome(before, Some(FetchToken(page).error)) && r.1.None?
    ensures FetchToken(page).Ok? ==> r.0 == Respond(before, post) && r.1.Some? && "at" in r.1.value.form && r.1.value.form["at"] == FetchToken(page).value
  {
    match FetchToken(page)
    case Err(e) => (Outcome(before, Some(e)), None)
    case Ok(token) =>
      var request := CreateRequest(CreateSession(prompt, before.slots[before.cursor]));
      (Respond(before, post), Some(Request(CreateFormData(token, request), CreateBatchExecuteReqParams(draw))))
  }

  /** A failed token fetch: the error, nothing sent, and the whole state as it was, the cursor included. */
  lemma AskTokenFailure(before: Conversation, prompt: string, page: Exchange, draw: nat, post: Exchange)
    requires before.Valid() && draw < 999999
    requires FetchToken(page).Err?
    ensures var (o, sent) := AskSpec(before, prompt, page, draw, post);
            o.state == before && o.err == Some(FetchToken(page).error) && sent.None?
  {
  }

  /**
   * A fetched token: exactly one request is sent; its `at` field is the token;
   * its `f.req` field decodes, twice, to the prompt and the ids of the slot
   * that was under the cursor before the call; and the state is the one
   * `Respond` gives, with the cursor at 0.
   */
  lemma AskEnvelope(before: Conversation, prompt: string, page: Exchange, draw: nat, post: Exchange)
    requires before.Valid() && draw < 999999
    requires FetchToken(page).Ok?
    ensures var (o, sent) := AskSpec(before, prompt, page, draw, post);
            var ref := before.slots[before.cursor];
            sent.Some? && sent.value.form.Keys == {"f.req", "at"} &&
            sent.value.form["at"] == FetchToken(page).value &&
            ReadEnvelope(sent.value.form["f.req"]) ==
              Some((prompt, Answer("", ref.conversationID, ref.responseID, ref.choiceID))) &&
            sent.value.query["_reqid"] == Decimal(draw + 100000) &&
            o == Respond(before, post) && o.state.cursor == 0
  {
    EnvelopeRoundTrip(prompt, before.slots[before.cursor]);
  }

  class Bard {
    /** The two authentication cookies, fixed at creation. */
    const psid: string
    const psidts: string
    /** The three answer slots. */
    const answers: array<Answer>
    /** The slot under the cursor. */
    var currAnswer: int
    /** The number of candidates of the last turn that had any. */
    var numAnswers: int

    ghost predicate Valid()
      reads this
    {
      answers.Length == MaxAnswers && 0 <= currAnswer < MaxAnswers && numAnswers >= 0
    }

    /** The state as a value. */
    ghost function View(): (c: Conversation)
      reads this, answers
      requires Valid()
      ensures c.Valid()
    {
      Conversation(answers[..], currAnswer, numAnswers)
    }

    /** `New`: three empty slots, the cursor on slot 0 and a count of 0. */
    constructor (psid: string, psidts: string)
      ensures Valid() && fresh(answers)
      ensures this.psid == psid && this.psidts == psidts
      ensures answers[..] == [EmptyAnswer, EmptyAnswer, EmptyAnswer]
      ensures currAnswer == 0 && numAnswers == 0
    {
      this.psid := psid;
      this.psidts := psidts;
      var slots := new Answer[MaxAnswers];
      for i := 0 to MaxAnswers
        invariant forall k :: 0 <= k < i ==> slots[k] == EmptyAnswer
      {
        slots[i] := EmptyAnswer;
      }
      answers := slots;
      currAnswer := 0;
      numAnswers := 0;
    }

    /** `Next`: the cursor moves one slot forward on the ring; nothing else changes. */
    method Next()
      requires Valid()
      modifies this
      ensures Valid() && currAnswer == NextIndex(old(currAnswer))
      ensures numAnswers == old(numAnswers)
    {
      if currAnswer == 0 {
        currAnswer := 1;
      } else if currAnswer == 1 {
        currAnswer := 2;
      } else if currAnswer == 2 {
        currAnswer := 0;
      }
    }

    /** `Prev`: the cursor moves one slot back on the ring; nothing else changes. */
    method Prev()
      requires Valid()
      modifies this
      ensures Valid() && currAnswer == PrevIndex(old(currAnswer))
      ensures numAnswers == old(numAnswers)
    {
      if currAnswer == 0 {
        currAnswer := 2;
      } else if currAnswer == 1 {
        currAnswer := 0;
      } else if currAnswer == 2 {
        currAnswer := 1;
      }
    }

    /** `Reset`: three empty slots and the cursor on slot 0; the count stays. */
    method Reset()
      requires Valid()
      modifies this, answers
      ensures Valid()
      ensures answers[..] == [EmptyAnswer, EmptyAnswer, EmptyAnswer]
      ensures currAnswer == 0 && numAnswers == old(numAnswers)
    {
      for i := 0 to MaxAnswers
        modifies answers
        invariant forall k :: 0 <= k < i ==> answers[k] == EmptyAnswer
      {
        answers[i] := EmptyAnswer;
      }
      currAnswer := 0;
    }

    /** `GetAnswer`: the content of the slot under the cursor. */
    method GetAnswer() returns (content: string)
      requires Valid()
      ensures content == View().slots[View().cursor].content
    {
      content := answers[currAnswer].content;
    }

    /** `NextAnswer`: move forward, then the content of the slot now under the cursor. */
    method NextAnswer() returns (content: string)
      requires Valid()
      modifies this
      ensures Valid() && currAnswer == NextIndex(old(currAnswer)) && numAnswers == old(numAnswers)
      ensures content == answers[NextIndex(old(currAnswer))].content
    {
      Next();
      content := GetAnswer();
    }

    /** `PrevAnswer`: move back, then the content of the slot now under the cursor. */
    method PrevAnswer() returns (content: string)
      requires Valid()
      modifies this
      ensures Valid() && currAnswer == PrevIndex(old(currAnswer)) && numAnswers == old(numAnswers)
      ensures content == answers[PrevIndex(old(currAnswer))].content
    {
      Prev();
      content := GetAnswer();
    }

    /** `GetNumOfAnswers`: the count of the last turn that had candidates. */
    method GetNumOfAnswers() returns (n: int)
      requires Valid()
      ensures n == View().count && n >= 0
    {
      n := numAnswers;
    }

    /** `getAllAnswers`: the three slots in order. */
    method AllAnswers() returns (values: seq<Answer>)
      requires Valid()
      ensures values == answers[..] && |values| == MaxAnswers
    {
      values := [];
      for i := 0 to MaxAnswers
        invariant values == answers[..i]
      {
        values := values + [answers[i]];
      }
    }

    /**
     * `doAsk` with the POST replaced by its result: the slots, the cursor and
     * the count change exactly as `Respond` says, and the error is the one it
     * reports.
     */
    method DoAsk(post: Exchange) returns (err: Option<AskError>)
      requires Valid()
      modifies this, answers
      ensures Valid()
      ensures Outcome(View(), err) == Respond(old(View()), post)
    {
      currAnswer := 0;
      if post.Failed? {
        return Some(TransportError);
      }
      if post.status != 200 {
        return Some(UnexpectedStatus(post.status));
      }
      var payload := Payload(post.body);
      if payload.Err? {
        return Some(payload.error);
      }
      var doc := GJson.Load(payload.value);
      WriteIds(ConversationIdOf(doc), ResponseIdOf(doc));
      var cands := CandidatesOf(doc);
      if |cands| == 0 {
        return Some(NoCandidates);
      }
      numAnswers := |cands|;
      var kept := cands;
      if numAnswers > MaxAnswers {
        kept := cands[..MaxAnswers];
      }
      assert kept == Kept(cands);
      var ok := WriteCandidates(kept);
      err := if ok then None else Some(Malformed);
    }

    /** The loop at main.go:364-367: every slot takes the two ids of the new turn. */
    method WriteIds(conv: string, resp: string)
      requires answers.Length == MaxAnswers
      modifies answers
      ensures answers[..] == WithIds(old(answers[..]), conv, resp)
    {
      for i := 0 to MaxAnswers
        invariant forall k :: 0 <= k < i ==> answers[k] == old(answers[k]).(conversationID := conv, responseID := resp)
        invariant forall k :: i <= k < MaxAnswers ==> answers[k] == old(answers[k])
      {
        answers[i] := answers[i].(conversationID := conv, responseID := resp);
      }
    }

    /**
     * The loop at main.go:385-388: candidate `i` goes into slot `i`, its choice
     * id first and then its content; the writes stop at a candidate that lacks
     * either, as `Fill` describes.
     */
    method WriteCandidates(kept: seq<Json>) returns (ok: bool)
      requires answers.Length == MaxAnswers && |kept| <= MaxAnswers
      modifies answers
      ensures (answers[..], ok) == Fill(old(answers[..]), kept, 0)
    {
      var i := 0;
      while i < |kept|
        invariant 0 <= i <= |kept|
        invariant Fill(answers[..], kept, i) == Fill(old(answers[..]), kept, 0)
      {
        if !HasChoice(kept[i]) {
          return false;
        }
        answers[i] := answers[i].(choiceID := ChoiceOf(kept[i]));
        if !HasContent(kept[i]) {
          return false;
        }
        answers[i] := answers[i].(content := ContentOf(kept[i]));
        i := i + 1;
      }
      return true;
    }

    /**
     * `Ask` with the token page, the request-id draw and the POST result as
     * inputs: the state, the error and the request sent are those of `AskSpec`.
     */
    method Ask(prompt: string, page: Exchange, draw: nat, post: Exchange) returns (err: Option<AskError>, sent: Option<Request>)
      requires Valid() && draw < 999999
      modifies this, answers
      ensures Valid()
      ensures (Outcome(View(), err), sent) == AskSpec(old(View()), prompt, page, draw, post)
    {
      var token := FetchToken(page);
      if token.Err? {
        return Some(token.error), None;
      }
      var session := CreateSession(prompt, answers[currAnswer]);
      var request := CreateRequest(session);
      var form := CreateFormData(token.value, request);
      var query := CreateBatchExecuteReqParams(draw);
      sent := Some(Request(form, query));
      err := DoAsk(post);
    }
  }
}
