/**
 * What `doAsk` does with the answer to its POST (main.go:331-391): take line 3
 * of the body, decode it as an array of arrays, read element [0][2] as the
 * text of a second document, and write its ids and candidates into the three
 * slots. The slots, the cursor and the count are a `Conversation` value here;
 * the class in module Session performs the same steps in place.
 */
module Response {
  import opened Base
  import opened Json
  import opened GJson

  // ---------------------------------------------------------------------------
  // Lines
  // ---------------------------------------------------------------------------

  /** `strings.Split(s, "\n")`: the text between newlines, at least one piece. */
  function Split(s: string): (lines: seq<string>)
    ensures |lines| >= 1
    ensures forall k :: 0 <= k < |lines| ==> '\n' !in lines[k]
    decreases |s|
  {
    if s == [] then [""]
    else
      var rest := Split(s[1..]);
      if s[0] == '\n' then [""] + rest
      else [[s[0]] + rest[0]] + rest[1..]
  }

  /** `strings.Join(lines, "\n")`. */
  function Join(lines: seq<string>): string
    requires |lines| >= 1
    decreases |lines|
  {
    if |lines| == 1 then lines[0] else lines[0] + "\n" + Join(lines[1..])
  }

  /** Splitting and joining again gives the text back. */
  lemma {:induction false} SplitJoin(s: string)
    ensures Join(Split(s)) == s
    decreases |s|
  {
    if s != [] {
      var rest := Split(s[1..]);
      SplitJoin(s[1..]);
      if s[0] == '\n' {
        assert ([""] + rest)[1..] == rest;
      } else {
        var lines := [[s[0]] + rest[0]] + rest[1..];
        if |rest| == 1 {
          assert [s[0]] + s[1..] == s;
          assert lines == [s];
        } else {
          assert lines[1..] == rest[1..];
          assert Join(rest) == rest[0] + "\n" + Join(rest[1..]);
        }
      }
    }
  }

  /** A line without a newline runs into the first piece of what follows it. */
  lemma {:induction false} SplitLine(x: string, tail: string)
    requires '\n' !in x
    ensures Split(x + tail) == [x + Split(tail)[0]] + Split(tail)[1..]
    decreases |x|
  {
    if x != [] {
      assert (x + tail)[1..] == x[1..] + tail;
      assert (x + tail)[0] == x[0];
      SplitLine(x[1..], tail);
      assert [x[0]] + (x[1..] + Split(tail)[0]) == x + Split(tail)[0];
    } else {
      assert x + tail == tail;
      assert x + Split(tail)[0] == Split(tail)[0];
      assert [Split(tail)[0]] + Split(tail)[1..] == Split(tail);
    }
  }

  /** Joining lines without newlines and splitting again gives the lines back. */
  lemma {:induction false} JoinSplit(lines: seq<string>)
    requires |lines| >= 1
    requires forall k :: 0 <= k < |lines| ==> '\n' !in lines[k]
    ensures Split(Join(lines)) == lines
    decreases |lines|
  {
    if |lines| == 1 {
      SplitLine(lines[0], "");
      assert lines[0] + "" == lines[0];
    } else {
      var tail := "\n" + Join(lines[1..]);
      JoinSplit(lines[1..]);
      assert tail[1..] == Join(lines[1..]);
      assert Split(tail) == [""] + lines[1..];
      assert Join(lines) == lines[0] + tail;
      SplitLine(lines[0], tail);
      assert lines[0] + "" == lines[0];
      assert ([""] + lines[1..])[1..] == lines[1..];
      assert [lines[0]] + lines[1..] == lines;
    }
  }

  // ---------------------------------------------------------------------------
  // The outer document
  // ---------------------------------------------------------------------------

  /**
   * `json.Unmarshal` into a `[][]interface{}`: null is the empty list, an array
   * is accepted when every element is null (an empty row) or an array, and
   * anything else is an error.
   */
  function Rows(j: Json): (r: Option<seq<seq<Json>>>)
    ensures j.Null? ==> r == Some([])
    ensures !j.Null? && !j.Arr? ==> r == None
    ensures j.Arr? ==> (r.Some? <==> forall k :: 0 <= k < |j.items| ==> IsRow(j.items[k]))
    ensures r.Some? && j.Arr? ==>
              |r.value| == |j.items| && forall k :: 0 <= k < |j.items| ==> r.value[k] == RowOf(j.items[k])
  {
    match j
    case Null => Some([])
    case Arr(items) => RowList(items)
    case _ => None
  }

  predicate IsRow(j: Json) { j.Null? || j.Arr? }

  function RowOf(j: Json): seq<Json> {
    if j.Arr? then j.items else []
  }

  function RowList(items: seq<Json>): (r: Option<seq<seq<Json>>>)
    ensures r.Some? <==> forall k :: 0 <= k < |items| ==> IsRow(items[k])
    ensures r.Some? ==> |r.value| == |items| && forall k :: 0 <= k < |items| ==> r.value[k] == RowOf(items[k])
    decreases |items|
  {
    if items == [] then Some([])
    else if !IsRow(items[0]) then None
    else
      match RowList(items[1..])
      case None =>
        assert !forall k :: 0 <= k < |items| - 1 ==> IsRow(items[1..][k]);
        None
      case Some(rest) =>
        assert forall k :: 0 <= k < |items| - 1 ==> IsRow(items[1..][k]);
        Some([RowOf(items[0])] + rest)
  }

  /**
   * Line 3 of the body up to the text of the second document: fewer than four
   * lines, or a first row shorter than three elements, is Malformed (the
   * source indexes out of range there); a line that does not decode into
   * rows is UnmarshalError; an element [0][2] that is not a string is
   * NoAnswer.
   */
  function Payload(body: string): (r: Result<string, AskError>)
    ensures |Split(body)| < 4 ==> r == Err(Malformed)
    ensures |Split(body)| >= 4 && (Parse(Split(body)[3]).None? || Rows(Parse(Split(body)[3]).value).None?) ==>
              r == Err(UnmarshalError)
    ensures r.Ok? <==> |Split(body)| >= 4 && PayloadAt(Split(body)[3]).Some?
    ensures r.Ok? ==> r.value == PayloadAt(Split(body)[3]).value
    ensures r.Err? ==> r.error in {Malformed, UnmarshalError, NoAnswer}
    ensures |Split(body)| >= 4 && Parse(Split(body)[3]).Some? && Rows(Parse(Split(body)[3]).value).Some? ==>
              var rows := Rows(Parse(Split(body)[3]).value).value;
              (|rows| == 0 || |rows[0]| < 3 ==> r == Err(Malformed)) &&
              (|rows| > 0 && |rows[0]| >= 3 && !rows[0][2].Str? ==> r == Err(NoAnswer))
  {
    var lines := Split(body);
    if |lines| < 4 then Err(Malformed)
    else
      match Parse(lines[3])
      case None => Err(UnmarshalError)
      case Some(doc) =>
        match Rows(doc)
        case None => Err(UnmarshalError)
        case Some(rows) =>
          if |rows| == 0 || |rows[0]| < 3 then Err(Malformed)
          else if rows[0][2].Str? then Ok(rows[0][2].s)
          else Err(NoAnswer)
  }

  /**
   * The reference definition of the string the payload line carries: the
   * line is a JSON array whose first element is an array whose third element
   * is a string.
   */
  ghost function PayloadAt(line: string): Option<string> {
    var doc := Parse(line);
    if doc.Some? && doc.value.Arr? && |doc.value.items| > 0 &&
       (forall k :: 0 <= k < |doc.value.items| ==> IsRow(doc.value.items[k])) &&
       doc.value.items[0].Arr? && |doc.value.items[0].items| >= 3 &&
       doc.value.items[0].items[2].Str?
    then Some(doc.value.items[0].items[2].s)
    else None
  }

  // ---------------------------------------------------------------------------
  // Candidates
  // ---------------------------------------------------------------------------

  /** `promptAnswer[i].Array()`. */
  function Parts(c: Json): seq<Json> {
    ArrayOf(Some(c))
  }

  /** `promptAnswer[i].Array()[0]` exists. */
  predicate HasChoice(c: Json) {
    |Parts(c)| >= 1
  }

  /** `promptAnswer[i].Array()[1].Array()[0]` exists. */
  predicate HasContent(c: Json) {
    |Parts(c)| >= 2 && |ArrayOf(Some(Parts(c)[1]))| >= 1
  }

  /** The choice id of a candidate: the text of its first element. */
  function ChoiceOf(c: Json): (id: string)
    requires HasChoice(c)
    ensures Parts(c)[0].Str? ==> id == Parts(c)[0].s
    ensures Parts(c)[0].Null? ==> id == ""
  {
    StringOf(Some(Parts(c)[0]))
  }

  /** The content of a candidate: the text of the first element of its second element. */
  function ContentOf(c: Json): (content: string)
    requires HasContent(c)
    ensures var e := ArrayOf(Some(Parts(c)[1]))[0]; (e.Str? ==> content == e.s) && (e.Null? ==> content == "")
  {
    StringOf(Some(ArrayOf(Some(Parts(c)[1]))[0]))
  }

  /** The slot after candidate `c` is written into it. */
  function Chosen(a: Answer, c: Json): Answer
    requires HasChoice(c) && HasContent(c)
  {
    a.(choiceID := ChoiceOf(c), content := ContentOf(c))
  }

  /** Every slot with the ids of the new turn. */
  function WithIds(slots: seq<Answer>, conv: string, resp: string): (r: seq<Answer>)
    ensures |r| == |slots|
  {
    seq(|slots|, k requires 0 <= k < |slots| => slots[k].(conversationID := conv, responseID := resp))
  }

  /** The first candidate from `i` on that lacks its choice or its content, or |kept|. */
  function FirstMalformed(kept: seq<Json>, i: nat): (m: nat)
    requires i <= |kept|
    ensures i <= m <= |kept|
    ensures forall k :: i <= k < m ==> HasChoice(kept[k]) && HasContent(kept[k])
    ensures m < |kept| ==> !(HasChoice(kept[m]) && HasContent(kept[m]))
    decreases |kept| - i
  {
    if i == |kept| || !(HasChoice(kept[i]) && HasContent(kept[i])) then i else FirstMalformed(kept, i + 1)
  }

  /**
   * The loop at main.go:385-388 from candidate `i` on: write the choice id,
   * then the content, of each candidate in turn. When a candidate lacks its
   * first element the write stops before it; when it lacks its content, after
   * its choice id (the source indexes out of range at that point). The flag
   * says whether every candidate was written.
   */
  function Fill(slots: seq<Answer>, kept: seq<Json>, i: nat): (r: (seq<Answer>, bool))
    requires |kept| <= |slots| && i <= |kept|
    ensures |r.0| == |slots|
    decreases |kept| - i
  {
    if i == |kept| then (slots, true)
    else if !HasChoice(kept[i]) then (slots, false)
    else
      var s := slots[i := slots[i].(choiceID := ChoiceOf(kept[i]))];
      if !HasContent(kept[i]) then (s, false)
      else Fill(s[i := s[i].(content := ContentOf(kept[i]))], kept, i + 1)
  }

  /**
   * What `Fill` from candidate `i` leaves in each slot, for the result `r` and
   * the first malformed candidate `m`: the candidates before `m` are written
   * whole, `m` gets its choice id when it has one, and every other slot keeps
   * what it held. The flag is set exactly when no candidate is malformed.
   */
  ghost predicate FillResult(slots: seq<Answer>, kept: seq<Json>, i: nat, r: (seq<Answer>, bool), m: nat)
    requires |kept| <= |slots| && i <= m <= |kept| && |r.0| == |slots|
  {
    (r.1 <==> m == |kept|) &&
    (forall k :: i <= k < m ==> HasChoice(kept[k]) && HasContent(kept[k]) && r.0[k] == Chosen(slots[k], kept[k])) &&
    (m < |kept| && HasChoice(kept[m]) ==> r.0[m] == slots[m].(choiceID := ChoiceOf(kept[m]))) &&
    (m < |kept| && !HasChoice(kept[m]) ==> r.0[m] == slots[m]) &&
    (forall k :: 0 <= k < |slots| && (k < i || k > m || (k == m && m == |kept|)) ==> r.0[k] == slots[k])
  }

  /** What `Fill` leaves in each slot, as `FillResult` describes. */
  lemma {:induction false} FillEffect(slots: seq<Answer>, kept: seq<Json>, i: nat)
    requires |kept| <= |slots| && i <= |kept|
    ensures FillResult(slots, kept, i, Fill(slots, kept, i), FirstMalformed(kept, i))
    decreases |kept| - i
  {
    if i < |kept| && HasChoice(kept[i]) && HasContent(kept[i]) {
      var s' := slots[i := Chosen(slots[i], kept[i])];
      FillOne(slots, kept, i);
      FillEffect(s', kept, i + 1);
      FillStep(slots, kept, i, Fill(s', kept, i + 1), FirstMalformed(kept, i + 1));
    } else {
      FillStops(slots, kept, i);
    }
  }

  /** A well-formed candidate `i` is written whole, then the writes go on from `i + 1`. */
  lemma FillOne(slots: seq<Answer>, kept: seq<Json>, i: nat)
    requires |kept| <= |slots| && i < |kept|
    requires HasChoice(kept[i]) && HasContent(kept[i])
    ensures Fill(slots, kept, i) == Fill(slots[i := Chosen(slots[i], kept[i])], kept, i + 1)
    ensures FirstMalformed(kept, i) == FirstMalformed(kept, i + 1)
  {
    var s := slots[i := slots[i].(choiceID := ChoiceOf(kept[i]))];
    assert s[i := s[i].(content := ContentOf(kept[i]))] == slots[i := Chosen(slots[i], kept[i])];
  }

  /** Writing candidate `i` whole and then the rest gives the effect from `i`. */
  lemma FillStep(slots: seq<Answer>, kept: seq<Json>, i: nat, r: (seq<Answer>, bool), m: nat)
    requires |kept| <= |slots| && i < m <= |kept| && |r.0| == |slots|
    requires HasChoice(kept[i]) && HasContent(kept[i])
    requires FillResult(slots[i := Chosen(slots[i], kept[i])], kept, i + 1, r, m)
    ensures FillResult(slots, kept, i, r, m)
  {
  }

  /** `Fill` where the writes stop at once: at the end, or at a malformed candidate. */
  lemma FillStops(slots: seq<Answer>, kept: seq<Json>, i: nat)
    requires |kept| <= |slots| && i <= |kept|
    requires !(i < |kept| && HasChoice(kept[i]) && HasContent(kept[i]))
    ensures FirstMalformed(kept, i) == i
    ensures FillResult(slots, kept, i, Fill(slots, kept, i), i)
  {
  }

  /** The candidates that are kept: at most `MaxAnswers` of them. */
  function Kept(cands: seq<Json>): (kept: seq<Json>)
    ensures |kept| == if |cands| > MaxAnswers then MaxAnswers else |cands|
    ensures kept == cands[..|kept|]
  {
    if |cands| > MaxAnswers then cands[..MaxAnswers] else cands
  }

  // ---------------------------------------------------------------------------
  // One turn
  // ---------------------------------------------------------------------------

  /** The three reads of the second document. */
  /** `gjson.Get(doc, "1.0").String()`: the first element of the value at index 1. */
  function ConversationIdOf(doc: Json): (id: string)
    ensures HasAt(doc, 1, 0) ==> var e := doc.items[1].items[0]; (e.Str? ==> id == e.s) && (e.Null? ==> id == "")
    ensures !HasAt(doc, 1, 0) ==> id == ""
  {
    assert [1, 0][1..] == [0];
    StringOf(Get(doc, [1, 0]))
  }

  /** `gjson.Get(doc, "1.1").String()`: the second element of the value at index 1. */
  function ResponseIdOf(doc: Json): (id: string)
    ensures HasAt(doc, 1, 1) ==> var e := doc.items[1].items[1]; (e.Str? ==> id == e.s) && (e.Null? ==> id == "")
    ensures !HasAt(doc, 1, 1) ==> id == ""
  {
    assert [1, 1][1..] == [1];
    StringOf(Get(doc, [1, 1]))
  }

  /** `gjson.Get(doc, "4").Array()`: the candidates at index 4. */
  function CandidatesOf(doc: Json): (cands: seq<Json>)
    ensures !(doc.Arr? && |doc.items| > 4) ==> cands == []
    ensures doc.Arr? && |doc.items| > 4 ==>
              var e := doc.items[4];
              (e.Null? ==> cands == []) && (e.Arr? ==> cands == e.items) &&
              (!e.Null? && !e.Arr? ==> cands == [e])
  {
    ArrayOf(Get(doc, [4]))
  }

  /** `doc` is an array whose element `i` is an array with an element `j`. */
  predicate HasAt(doc: Json, i: nat, j: nat) {
    doc.Arr? && i < |doc.items| && doc.items[i].Arr? && j < |doc.items[i].items|
  }

  /** Both ids come from the element at index 1: its first and its second element. */
  lemma IdsFromPair(doc: Json)
    ensures ConversationIdOf(doc) == StringOf(match Get(doc, [1]) case None => None case Some(d) => Get(d, [0]))
    ensures ResponseIdOf(doc) == StringOf(match Get(doc, [1]) case None => None case Some(d) => Get(d, [1]))
  {
    assert [1] + [0] == [1, 0] && [1] + [1] == [1, 1];
    GetConcat(doc, [1], [0]);
    GetConcat(doc, [1], [1]);
  }

  /**
   * `doAsk` from the reset of the cursor on, with the POST replaced by its
   * result. The cursor is 0 whatever happens. A failed POST or a status other
   * than 200 changes nothing else; so does a payload error. Otherwise the ids
   * of the second document go into all three slots; an empty candidate list
   * is NoCandidates and leaves the count; a non-empty one sets the count to
   * its full length and is written into the slots.
   */
  function Respond(before: Conversation, post: Exchange): (o: Outcome)
    requires before.Valid()
    ensures o.state.Valid() && o.state.cursor == 0
  {
    var reset := before.(cursor := 0);
    match post
    case Failed => Outcome(reset, Some(TransportError))
    case Answered(status, body) =>
      if status != 200 then Outcome(reset, Some(UnexpectedStatus(status)))
      else
        match Payload(body)
        case Err(e) => Outcome(reset, Some(e))
        case Ok(inner) =>
          var doc := Load(inner);
          var ids := WithIds(before.slots, ConversationIdOf(doc), ResponseIdOf(doc));
          var cands := CandidatesOf(doc);
          if |cands| == 0 then Outcome(reset.(slots := ids), Some(NoCandidates))
          else
            var r := Fill(ids, Kept(cands), 0);
            Outcome(Conversation(r.0, 0, |cands|), if r.1 then None else Some(Malformed))
  }

  /**
   * A failed POST, a status other than 200, or a body without a payload
   * string: the slots and the count stay as they were, and only the cursor
   * moves to 0.
   */
  lemma TurnWithoutPayload(before: Conversation, post: Exchange)
    requires before.Valid()
    requires post.Failed? || post.status != 200 || Payload(post.body).Err?
    ensures var o := Respond(before, post);
            o.state == before.(cursor := 0) && o.err.Some? &&
            o.err.value == (if post.Failed? then TransportError
                            else if post.status != 200 then UnexpectedStatus(post.status)
                            else Payload(post.body).error)
  {
  }

  /**
   * An empty candidate list: NoCandidates, the count as it was, and yet every
   * slot already holds the new conversation and response ids, with its
   * choice id and content as they were.
   */
  lemma TurnNoCandidates(before: Conversation, body: string)
    requires before.Valid() && Payload(body).Ok?
    requires CandidatesOf(Load(Payload(body).value)) == []
    ensures var o := Respond(before, Answered(200, body)); var doc := Load(Payload(body).value);
            o.err == Some(NoCandidates) && o.state.count == before.count &&
            forall k :: 0 <= k < MaxAnswers ==>
              o.state.slots[k] == before.slots[k].(conversationID := ConversationIdOf(doc), responseID := ResponseIdOf(doc))
  {
  }

  /**
   * A turn with candidates. The count is the number of candidates, uncapped;
   * every slot has the new ids; slot `k` below the number kept takes the
   * choice id and content of candidate `k` up to the first malformed
   * candidate; the slots past the kept ones keep their choice id and content.
   * The turn succeeds exactly when no kept candidate is malformed.
   */
  lemma TurnWithCandidates(before: Conversation, body: string)
    requires before.Valid() && Payload(body).Ok?
    requires CandidatesOf(Load(Payload(body).value)) != []
    ensures var o := Respond(before, Answered(200, body));
            var doc := Load(Payload(body).value);
            var cands := CandidatesOf(doc);
            var kept := Kept(cands);
            var m := FirstMalformed(kept, 0);
            var ids := WithIds(before.slots, ConversationIdOf(doc), ResponseIdOf(doc));
            o.state.count == |cands| &&
            (o.err == None <==> m == |kept|) &&
            (o.err != None ==> o.err == Some(Malformed)) &&
            (forall k :: 0 <= k < MaxAnswers ==>
               o.state.slots[k].conversationID == ConversationIdOf(doc) &&
               o.state.slots[k].responseID == ResponseIdOf(doc)) &&
            (forall k :: 0 <= k < m ==> o.state.slots[k] == Chosen(ids[k], kept[k])) &&
            (forall k :: |kept| <= k < MaxAnswers ==> o.state.slots[k] == ids[k])
  {
    var doc := Load(Payload(body).value);
    var ids := WithIds(before.slots, ConversationIdOf(doc), ResponseIdOf(doc));
    var cands := CandidatesOf(doc);
    var kept := Kept(cands);
    var r := Fill(ids, kept, 0);
    assert Respond(before, Answered(200, body)) == Outcome(Conversation(r.0, 0, |cands|), if r.1 then None else Some(Malformed)) by {
      RespondWithCandidates(before, body);
    }
    FillSummary(ids, kept, ConversationIdOf(doc), ResponseIdOf(doc));
  }

  /** `FillEffect` from the first candidate, over slots that all hold the ids `conv` and `resp`. */
  lemma FillSummary(ids: seq<Answer>, kept: seq<Json>, conv: string, resp: string)
    requires |kept| <= |ids|
    requires forall k :: 0 <= k < |ids| ==> ids[k].conversationID == conv && ids[k].responseID == resp
    ensures var r := Fill(ids, kept, 0); var m := FirstMalformed(kept, 0);
            (r.1 <==> m == |kept|) &&
            (forall k :: 0 <= k < |ids| ==> r.0[k].conversationID == conv && r.0[k].responseID == resp) &&
            (forall k :: 0 <= k < m ==> r.0[k] == Chosen(ids[k], kept[k])) &&
            (forall k :: |kept| <= k < |ids| ==> r.0[k] == ids[k])
  {
    FillEffect(ids, kept, 0);
    FillKeepsIds(ids, kept, conv, resp);
  }

  /** The success-side unfolding of `Respond`. */
  lemma RespondWithCandidates(before: Conversation, body: string)
    requires before.Valid() && Payload(body).Ok?
    requires CandidatesOf(Load(Payload(body).value)) != []
    ensures var doc := Load(Payload(body).value);
            var cands := CandidatesOf(doc);
            var r := Fill(WithIds(before.slots, ConversationIdOf(doc), ResponseIdOf(doc)), Kept(cands), 0);
            Respond(before, Answered(200, body)) == Outcome(Conversation(r.0, 0, |cands|), if r.1 then None else Some(Malformed))
  {
  }

  /** `Fill` writes only choice ids and contents, so the ids every slot holds stay. */
  lemma FillKeepsIds(ids: seq<Answer>, kept: seq<Json>, conv: string, resp: string)
    requires |kept| <= |ids|
    requires forall k :: 0 <= k < |ids| ==> ids[k].conversationID == conv && ids[k].responseID == resp
    ensures var r := Fill(ids, kept, 0);
            forall k :: 0 <= k < |ids| ==> r.0[k].conversationID == conv && r.0[k].responseID == resp
  {
    FillEffect(ids, kept, 0);
  }

  /**
   * More than three candidates: the count is their full number, and the three
   * slots take the first three.
   */
  lemma TurnBeyondCapacity(before: Conversation, body: string)
    requires before.Valid() && Payload(body).Ok?
    requires |CandidatesOf(Load(Payload(body).value))| > MaxAnswers
    requires var cands := CandidatesOf(Load(Payload(body).value));
             forall k :: 0 <= k < MaxAnswers ==> HasChoice(cands[k]) && HasContent(cands[k])
    ensures var o := Respond(before, Answered(200, body));
            var doc := Load(Payload(body).value);
            var cands := CandidatesOf(doc);
            o.err == None && o.state.count == |cands| > MaxAnswers &&
            forall k :: 0 <= k < MaxAnswers ==>
              o.state.slots[k] == Answer(ContentOf(cands[k]), ConversationIdOf(doc), ResponseIdOf(doc), ChoiceOf(cands[k]))
  {
    var doc := Load(Payload(body).value);
    var cands := CandidatesOf(doc);
    var kept := Kept(cands);
    assert kept == cands[..MaxAnswers];
    assert FirstMalformed(kept, 0) == MaxAnswers by {
      assert forall k :: 0 <= k < MaxAnswers ==> kept[k] == cands[k];
    }
    TurnWithCandidates(before, body);
  }

  // ---------------------------------------------------------------------------
  // Well-formed responses
  // ---------------------------------------------------------------------------

  /** A candidate `[choiceID, [content]]`. */
  function CandidateValue(c: (string, string)): Json {
    Arr([Str(c.0), Arr([Str(c.1)])])
  }

  function CandidateList(cs: seq<(string, string)>): (r: seq<Json>)
    ensures |r| == |cs| && forall k :: 0 <= k < |cs| ==> r[k] == CandidateValue(cs[k])
  {
    seq(|cs|, k requires 0 <= k < |cs| => CandidateValue(cs[k]))
  }

  /** The second document: `[null, [conversationID, responseID], null, null, [candidates]]`. */
  function InnerValue(conv: string, resp: string, cs: seq<(string, string)>): Json {
    Arr([Null, Arr([Str(conv), Str(resp)]), Null, Null, Arr(CandidateList(cs))])
  }

  /** The payload line: `[["wrb.fr", null, "<second document>"]]`. */
  function OuterValue(inner: string): Json {
    Arr([Arr([Str("wrb.fr"), Null, Str(inner)])])
  }

  /**
   * A body as the provider sends it: a three-line preamble, the payload line,
   * and a trailing empty line.
   */
  function ResponseBody(conv: string, resp: string, cs: seq<(string, string)>): string {
    Join([")]}'", "", "1234", Serialize(OuterValue(Serialize(InnerValue(conv, resp, cs)))), ""])
  }

  lemma InnerWellFormed(conv: string, resp: string, cs: seq<(string, string)>)
    ensures WellFormed(InnerValue(conv, resp, cs))
  {
    var list := CandidateList(cs);
    forall k | 0 <= k < |list| ensures WellFormed(list[k]) {
      assert WellFormed(Arr([Str(cs[k].1)]));
    }
    assert WellFormed(Arr(list));
    assert WellFormed(Arr([Str(conv), Str(resp)]));
  }

  /** The payload of a well-formed body is the text of its second document. */
  lemma BodyPayload(conv: string, resp: string, cs: seq<(string, string)>)
    ensures Payload(ResponseBody(conv, resp, cs)) == Ok(Serialize(InnerValue(conv, resp, cs)))
  {
    var text := Serialize(InnerValue(conv, resp, cs));
    var outer := OuterValue(text);
    assert WellFormed(outer) by {
      assert WellFormed(Arr([Str("wrb.fr"), Null, Str(text)]));
    }
    var line := Serialize(outer);
    SerializeOneLine(outer);
    RoundTrip(outer);
    var lines := [")]}'", "", "1234", line, ""];
    assert forall k :: 0 <= k < |lines| ==> '\n' !in lines[k];
    JoinSplit(lines);
    assert Split(ResponseBody(conv, resp, cs))[3] == line;
    assert IsRow(outer.items[0]);
    assert Rows(outer).value[0] == [Str("wrb.fr"), Null, Str(text)];
  }

  /** The three reads of the second document recover what was put into it. */
  lemma InnerReads(conv: string, resp: string, cs: seq<(string, string)>)
    ensures var inner := InnerValue(conv, resp, cs);
            Load(Serialize(inner)) == inner &&
            ConversationIdOf(inner) == conv && ResponseIdOf(inner) == resp &&
            CandidatesOf(inner) == CandidateList(cs)
  {
    InnerWellFormed(conv, resp, cs);
    RoundTrip(InnerValue(conv, resp, cs));
  }

  /** Writing well-formed candidates fills the slots below their number and no others. */
  lemma CandidateFill(ids: seq<Answer>, cs: seq<(string, string)>)
    requires |ids| == MaxAnswers
    ensures var r := Fill(ids, Kept(CandidateList(cs)), 0);
            r.1 &&
            forall k :: 0 <= k < MaxAnswers ==>
              r.0[k] == if k < |cs| then ids[k].(choiceID := cs[k].0, content := cs[k].1) else ids[k]
  {
    var kept := Kept(CandidateList(cs));
    forall k | 0 <= k < |kept|
      ensures HasChoice(kept[k]) && HasContent(kept[k]) && ChoiceOf(kept[k]) == cs[k].0 && ContentOf(kept[k]) == cs[k].1
    {
      assert kept[k] == CandidateValue(cs[k]);
    }
    assert FirstMalformed(kept, 0) == |kept|;
    FillEffect(ids, kept, 0);
  }

  /**
   * Applying a well-formed body with at least one candidate: the turn succeeds,
   * the count is the number of candidates, every slot has the two ids, slot
   * `k` below the number of candidates has candidate `k`, and the slots past
   * them keep their choice id and content. With no candidates the turn is
   * NoCandidates and the count stays.
   */
  lemma TurnOfResponseBody(before: Conversation, conv: string, resp: string, cs: seq<(string, string)>)
    requires before.Valid()
    ensures var o := Respond(before, Answered(200, ResponseBody(conv, resp, cs)));
            o.state.cursor == 0 &&
            (cs == [] ==> o.err == Some(NoCandidates) && o.state.count == before.count) &&
            (cs != [] ==> o.err == None && o.state.count == |cs|) &&
            forall k :: 0 <= k < MaxAnswers ==>
              o.state.slots[k] == if k < |cs| then Answer(cs[k].1, conv, resp, cs[k].0)
                                  else before.slots[k].(conversationID := conv, responseID := resp)
  {
    BodyPayload(conv, resp, cs);
    InnerReads(conv, resp, cs);
    CandidateFill(WithIds(before.slots, conv, resp), cs);
  }

  /**
   * The worked example: conversation `c`, response `r`, and two candidates,
   * `x` with content `a` and `y` with content `b`. The count is 2, slots 0
   * and 1 hold the two candidates, and slot 2 keeps its choice id and
   * content.
   */
  lemma TwoCandidateExample(before: Conversation, c: string, r: string, x: string, a: string, y: string, b: string)
    requires before.Valid()
    ensures var o := Respond(before, Answered(200, ResponseBody(c, r, [(x, a), (y, b)])));
            o.err == None && o.state.count == 2 && o.state.cursor == 0 &&
            o.state.slots == [Answer(a, c, r, x), Answer(b, c, r, y),
                              before.slots[2].(conversationID := c, responseID := r)]
  {
    var cs := [(x, a), (y, b)];
    var o := Respond(before, Answered(200, ResponseBody(c, r, cs)));
    TurnOfResponseBody(before, c, r, cs);
    ThreeSlots(o.state.slots, Answer(a, c, r, x), Answer(b, c, r, y), before.slots[2].(conversationID := c, responseID := r));
  }

  lemma ThreeSlots(s: seq<Answer>, a0: Answer, a1: Answer, a2: Answer)
    requires |s| == 3 && s[0] == a0 && s[1] == a1 && s[2] == a2
    ensures s == [a0, a1, a2]
  {
  }
}
