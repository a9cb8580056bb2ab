/**
 * The request envelope of a turn: the inner session array, its serialisation
 * embedded as a string in an outer array, the two form fields and the three
 * query parameters (`createSession`, `createRequest`, `createFormData`,
 * `createBatchExecuteReqParams`).
 */
module Envelope {
  import opened Base
  import opened Json

  /** `[[prompt], null, [conversationID, responseID, choiceID]]` for the slot `ref`. */
  function SessionValue(prompt: string, ref: Answer): Json {
    Arr([Arr([Str(prompt)]), Null, Arr([Str(ref.conversationID), Str(ref.responseID), Str(ref.choiceID)])])
  }

  /** `[null, session]`: the serialised session embedded as a JSON string. */
  function RequestValue(session: string): Json {
    Arr([Null, Str(session)])
  }

  lemma SessionValueWellFormed(prompt: string, ref: Answer)
    ensures WellFormed(SessionValue(prompt, ref))
  {
    var ids := Arr([Str(ref.conversationID), Str(ref.responseID), Str(ref.choiceID)]);
    assert WellFormed(Arr([Str(prompt)]));
    assert WellFormed(ids);
    assert SessionValue(prompt, ref).items == [Arr([Str(prompt)]), Null, ids];
  }

  /** A one-element array is its element in brackets. */
  lemma OneBracket(a: Json)
    ensures Serialize(Arr([a])) == "[" + Serialize(a) + "]"
  {
    assert SerializeItems([a]) == Serialize(a);
  }

  /** A three-element array is its elements in brackets, separated by commas. */
  lemma ThreeBracket(a: Json, b: Json, c: Json)
    ensures Serialize(Arr([a, b, c])) == "[" + (Serialize(a) + "," + Serialize(b) + "," + Serialize(c)) + "]"
  {
    assert [a, b, c][1..] == [b, c] && [b, c][1..] == [c];
    assert SerializeItems([c]) == Serialize(c);
    assert SerializeItems([b, c]) == Serialize(b) + "," + Serialize(c);
    assert SerializeItems([a, b, c]) == Serialize(a) + "," + (Serialize(b) + "," + Serialize(c));
    CommaRegroup(Serialize(a), Serialize(b), Serialize(c));
  }

  lemma CommaRegroup(x: string, y: string, z: string)
    ensures x + "," + (y + "," + z) == x + "," + y + "," + z
  {
  }

  lemma SessionShape(q: string, x: string, y: string, z: string)
    ensures "[" + (("[" + q + "]") + "," + "null" + "," + ("[" + (x + "," + y + "," + z) + "]")) + "]" ==
            "[[" + q + "],null,[" + x + "," + y + "," + z + "]]"
  {
    var a := "[" + q + "]" + "," + "null" + ",";
    assert a == "[" + q + "],null," by {
      assert "]" + "," + "null" + "," == "],null,";
    }
    var ts := x + "," + y + "," + z;
    assert "[" + (a + ("[" + ts + "]")) + "]" == "[" + a + "[" + ts + "]]";
    assert "[" + a == "[[" + q + "],null,";
  }

  lemma SessionText(prompt: string, ref: Answer)
    ensures Serialize(SessionValue(prompt, ref)) ==
            "[[" + Quote(prompt) + "],null,[" + Quote(ref.conversationID) + "," +
            Quote(ref.responseID) + "," + Quote(ref.choiceID) + "]]"
  {
    var p := Arr([Str(prompt)]);
    var ids := Arr([Str(ref.conversationID), Str(ref.responseID), Str(ref.choiceID)]);
    OneBracket(Str(prompt));
    ThreeBracket(Str(ref.conversationID), Str(ref.responseID), Str(ref.choiceID));
    ThreeBracket(p, Null, ids);
    SessionShape(Quote(prompt), Quote(ref.conversationID), Quote(ref.responseID), Quote(ref.choiceID));
  }

  /**
   * `createSession`: the serialised inner array. It is exactly the text
   * `[["<prompt>"],null,["<conversationID>","<responseID>","<choiceID>"]]`
   * with each string escaped, and it reads back as the inner array.
   */
  function CreateSession(prompt: string, ref: Answer): (session: string)
    ensures session == "[[" + Quote(prompt) + "],null,[" + Quote(ref.conversationID) + "," +
                       Quote(ref.responseID) + "," + Quote(ref.choiceID) + "]]"
    ensures Parse(session) == Some(SessionValue(prompt, ref))
    ensures '\n' !in session
  {
    SessionValueWellFormed(prompt, ref);
    SessionText(prompt, ref);
    RoundTrip(SessionValue(prompt, ref));
    SerializeOneLine(SessionValue(prompt, ref));
    Serialize(SessionValue(prompt, ref))
  }

  /**
   * `createRequest`: the outer array `[null,"<session>"]`. It reads back as
   * an array of null and a string whose contents are `session` exactly.
   */
  function CreateRequest(session: string): (request: string)
    ensures request == "[null," + Quote(session) + "]"
    ensures Parse(request) == Some(RequestValue(session))
    ensures '\n' !in request
  {
    assert WellFormed(RequestValue(session));
    RoundTrip(RequestValue(session));
    SerializeOneLine(RequestValue(session));
    Serialize(RequestValue(session))
  }

  /**
   * What a receiver recovers from the `f.req` text: decode the outer array,
   * take its string element, decode that as the inner array and read the
   * prompt and the three ids out of it.
   */
  function ReadEnvelope(request: string): Option<(string, Answer)> {
    var outer := Parse(request);
    if outer.None? || outer.value != RequestValue(StringAt(outer.value, 1)) then None
    else
      var inner := Parse(StringAt(outer.value, 1));
      if inner.None? then None
      else
        var ids := ItemAt(inner.value, 2);
        var ref := Answer("", StringAt(ids, 0), StringAt(ids, 1), StringAt(ids, 2));
        var prompt := StringAt(ItemAt(inner.value, 0), 0);
        if inner.value == SessionValue(prompt, ref) then Some((prompt, ref)) else None
  }

  /** Element `k` of an array, or null. */
  function ItemAt(j: Json, k: nat): Json {
    if j.Arr? && k < |j.items| then j.items[k] else Null
  }

  /** The contents of string element `k` of an array, or "". */
  function StringAt(j: Json, k: nat): string {
    if ItemAt(j, k).Str? then ItemAt(j, k).s else ""
  }

  /**
   * The double encoding loses nothing: the prompt and the session reference
   * of the slot come back out of the envelope unchanged.
   */
  lemma EnvelopeRoundTrip(prompt: string, ref: Answer)
    ensures ReadEnvelope(CreateRequest(CreateSession(prompt, ref))) ==
            Some((prompt, Answer("", ref.conversationID, ref.responseID, ref.choiceID)))
  {
  }

  // ---------------------------------------------------------------------------
  // Form fields and query parameters
  // ---------------------------------------------------------------------------

  /** `createFormData`: exactly the two fields `f.req` and `at`. */
  function CreateFormData(token: string, request: string): (form: map<string, string>)
    ensures form.Keys == {"f.req", "at"}
    ensures form["f.req"] == request && form["at"] == token
  {
    map["f.req" := request, "at" := token]
  }

  /** The backend build label sent as `bl`. */
  const BuildLabel := "boq_assistant-bard-web-server_20230718.13_p2"

  function DigitChar(d: nat): (c: char)
    requires d < 10
    ensures IsDigit(c) && c as int - '0' as int == d
  {
    ('0' as int + d) as char
  }

  /** `fmt.Sprintf("%d", n)` for a non-negative `n`. */
  function Decimal(n: nat): (s: string)
    ensures s != [] && forall k :: 0 <= k < |s| ==> IsDigit(s[k])
    ensures s[0] == '0' ==> n == 0
    decreases n
  {
    if n < 10 then [DigitChar(n)] else Decimal(n / 10) + [DigitChar(n % 10)]
  }

  /** The number a string of decimal digits stands for. */
  function DecimalValue(s: string): nat
    requires forall k :: 0 <= k < |s| ==> IsDigit(s[k])
    decreases |s|
  {
    if s == [] then 0
    else
      assert IsDigit(s[|s| - 1]);
      10 * DecimalValue(s[..|s| - 1]) + (s[|s| - 1] as int - '0' as int)
  }

  /** Reading the decimal text of `n` back gives `n`. */
  lemma {:induction false} DecimalRoundTrip(n: nat)
    ensures DecimalValue(Decimal(n)) == n
    decreases n
  {
    var s := Decimal(n);
    if n >= 10 {
      DecimalRoundTrip(n / 10);
      assert s[..|s| - 1] == Decimal(n / 10);
    }
  }

  function Pow10(k: nat): (p: nat)
    ensures p >= 1
  {
    if k == 0 then 1 else 10 * Pow10(k - 1)
  }

  /** A number with `k` decimal digits is written with `k` characters. */
  lemma {:induction false} DecimalLength(n: nat, k: nat)
    requires k >= 1 && Pow10(k - 1) <= n < Pow10(k)
    ensures |Decimal(n)| == k
    decreases k
  {
    if k > 1 {
      DecimalLength(n / 10, k - 1);
    }
  }

  lemma ReqIdText(draw: nat)
    requires draw < 999999
    ensures DecimalValue(Decimal(draw + 100000)) == draw + 100000
    ensures |Decimal(draw + 100000)| == if draw < 900000 then 6 else 7
  {
    DecimalRoundTrip(draw + 100000);
    assert Pow10(5) == 100000 by {
      assert Pow10(1) == 10 && Pow10(2) == 100 && Pow10(3) == 1000 && Pow10(4) == 10000;
    }
    assert Pow10(7) == 10000000 by {
      assert Pow10(6) == 1000000;
    }
    if draw < 900000 {
      DecimalLength(draw + 100000, 6);
    } else {
      DecimalLength(draw + 100000, 7);
    }
  }

  /**
   * `createBatchExecuteReqParams` with `draw` the value `mrand.Intn(999999)`
   * returned: exactly the keys `bl`, `_reqid` and `rt`, with `_reqid` the
   * decimal text of `draw + 100000` (six digits below a draw of 900000, seven
   * from there on) and `rt` the fixed code `c`.
   */
  function CreateBatchExecuteReqParams(draw: nat): (params: map<string, string>)
    requires draw < 999999
    ensures params.Keys == {"bl", "_reqid", "rt"}
    ensures params["bl"] == BuildLabel && params["rt"] == "c"
    ensures var id := params["_reqid"];
            (forall k :: 0 <= k < |id| ==> IsDigit(id[k])) &&
            DecimalValue(id) == draw + 100000 &&
            |id| == (if draw < 900000 then 6 else 7)
  {
    ReqIdText(draw);
    map["bl" := BuildLabel, "_reqid" := Decimal(draw + 100000), "rt" := "c"]
  }
}
