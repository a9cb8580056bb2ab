/**
 * Extraction of the anti-forgery token from the provider's page: the first
 * match of the pattern `SNlM0e":"(.*?)"` (main.go:246), written out as a scanner,
 * and the status checks of `getSnim0eValue` around it.
 */
module Token {
  import opened Base

  /** The text in front of the token. */
  const Marker := "SNlM0e\":\""

  /**
   * The pattern matches at `p` with its closing quote at `e`: the marker starts
   * at `p`, and between the marker and `e` there is no quote (the lazy `.*?`
   * stops at the first one) and no newline (`.` does not match one).
   */
  ghost predicate MatchAt(s: string, p: int, e: int) {
    0 <= p && p + |Marker| <= e < |s| &&
    s[p..p + |Marker|] == Marker &&
    s[e] == '"' &&
    forall k :: p + |Marker| <= k < e ==> s[k] != '"' && s[k] != '\n'
  }

  ghost predicate MatchesAt(s: string, p: int) {
    exists e :: MatchAt(s, p, e)
  }

  /** `t` is the text of the leftmost match, which starts at `p`. */
  ghost predicate FirstMatch(s: string, p: int, t: string) {
    MatchAt(s, p, p + |Marker| + |t|) &&
    t == s[p + |Marker|..p + |Marker| + |t|] &&
    forall q :: 0 <= q < p ==> !MatchesAt(s, q)
  }

  /** The first index at or after `i` that holds a quote or a newline, or |s|. */
  function StopAt(s: string, i: nat): (e: nat)
    requires i <= |s|
    ensures i <= e <= |s|
    ensures forall k :: i <= k < e ==> s[k] != '"' && s[k] != '\n'
    ensures e < |s| ==> s[e] == '"' || s[e] == '\n'
    decreases |s| - i
  {
    if i == |s| || s[i] == '"' || s[i] == '\n' then i else StopAt(s, i + 1)
  }

  /** At each start position the match, if any, closes at the first stop character. */
  lemma MatchEnd(s: string, p: nat, e: int)
    requires p + |Marker| <= |s|
    requires MatchAt(s, p, e)
    ensures e == StopAt(s, p + |Marker|)
  {
  }

  /**
   * The first match at or after `p`: its start and the position of its
   * closing quote. No position in between matches.
   */
  function ScanFrom(s: string, p: nat): (r: Option<(nat, nat)>)
    requires p <= |s|
    ensures r.Some? ==> p <= r.value.0 && MatchAt(s, r.value.0, r.value.1)
    ensures r.Some? ==> forall q :: p <= q < r.value.0 ==> !MatchesAt(s, q)
    ensures r.None? ==> forall q :: p <= q <= |s| ==> !MatchesAt(s, q)
    decreases |s| - p
  {
    if p + |Marker| > |s| then
      NoRoom(s, p);
      None
    else
      var e := StopAt(s, p + |Marker|);
      if s[p..p + |Marker|] == Marker && e < |s| && s[e] == '"' then
        assert MatchAt(s, p, e);
        Some((p, e))
      else
        NoMatchHere(s, p);
        ScanFrom(s, p + 1)
  }

  /** Too close to the end for the marker: no match from `p` on. */
  lemma NoRoom(s: string, p: nat)
    requires p + |Marker| > |s|
    ensures forall q :: p <= q <= |s| ==> !MatchesAt(s, q)
  {
  }

  lemma NoMatchHere(s: string, p: nat)
    requires p + |Marker| <= |s|
    requires var e := StopAt(s, p + |Marker|); !(s[p..p + |Marker|] == Marker && e < |s| && s[e] == '"')
    ensures !MatchesAt(s, p)
  {
    if MatchesAt(s, p) {
      var e :| MatchAt(s, p, e);
      MatchEnd(s, p, e);
    }
  }

  /**
   * `snim0eRegex.FindStringSubmatch(page)[1]`: the text of the first match of
   * the pattern, which holds no quote and no newline; None when the pattern
   * matches nowhere.
   */
  function FindToken(page: string): (r: Option<string>)
    ensures r.Some? ==> exists p :: FirstMatch(page, p, r.value)
    ensures r.Some? ==> '"' !in r.value && '\n' !in r.value
    ensures r.None? <==> forall p :: 0 <= p <= |page| ==> !MatchesAt(page, p)
  {
    match ScanFrom(page, 0)
    case None => None
    case Some((p, e)) =>
      var t := page[p + |Marker|..e];
      assert e == p + |Marker| + |t|;
      assert MatchesAt(page, p);
      TokenChars(page, p, t);
      assert FirstMatch(page, p, t);
      Some(t)
  }

  lemma TokenChars(s: string, p: nat, t: string)
    requires MatchAt(s, p, p + |Marker| + |t|) && t == s[p + |Marker|..p + |Marker| + |t|]
    ensures '"' !in t && '\n' !in t
  {
    forall k | 0 <= k < |t| ensures t[k] != '"' && t[k] != '\n' {
      assert t[k] == s[p + |Marker| + k];
    }
  }

  /**
   * `getSnim0eValue` with the GET replaced by its result: a failed request is
   * a transport error, a status other than 200 is reported with its code, and
   * a page without a match is TokenNotFound.
   */
  function FetchToken(page: Exchange): (r: Result<string, AskError>)
    ensures page.Failed? ==> r == Err(TransportError)
    ensures page.Answered? && page.status != 200 ==> r == Err(UnexpectedStatus(page.status))
    ensures page.Answered? && page.status == 200 ==>
              (r.Ok? <==> FindToken(page.body).Some?) &&
              (r.Ok? ==> r.value == FindToken(page.body).value) &&
              (r.Err? ==> r.error == TokenNotFound)
  {
    match page
    case Failed => Err(TransportError)
    case Answered(status, body) =>
      if status != 200 then Err(UnexpectedStatus(status))
      else
        match FindToken(body)
        case None => Err(TokenNotFound)
        case Some(t) => Ok(t)
  }

  /**
   * The token is found among arbitrary text around it: a page
   * `before + SNlM0e":"<t>" + after`, where `before` holds no match and `t`
   * no quote or newline, yields `t`.
   */
  lemma TokenAmidText(before: string, t: string, after: string)
    requires forall q :: 0 <= q < |before| ==> !MatchesAt(before + Marker + t + "\"" + after, q)
    requires '"' !in t && '\n' !in t
    ensures FindToken(before + Marker + t + "\"" + after) == Some(t)
  {
    var s := before + Marker + t + "\"" + after;
    MarkerAt(before, t, after);
    assert MatchesAt(s, |before|);
    var r := FindToken(s);
    assert r.Some?;
    var p' :| FirstMatch(s, p', r.value);
    LeftmostUnique(s, |before|, t, p', r.value);
  }

  /** The marker after `before`, then `t` and a quote, is a match at `|before|` whose text is `t`. */
  lemma MarkerAt(before: string, t: string, after: string)
    requires '"' !in t && '\n' !in t
    ensures var s := before + Marker + t + "\"" + after;
            var p := |before|;
            MatchAt(s, p, p + |Marker| + |t|) && t == s[p + |Marker|..p + |Marker| + |t|]
  {
    var s := before + Marker + t + "\"" + after;
    var p := |before|;
    var e := p + |Marker| + |t|;
    assert s[p..p + |Marker|] == Marker;
    assert s[e] == '"';
    forall k | p + |Marker| <= k < e ensures s[k] != '"' && s[k] != '\n' {
      assert s[k] == t[k - p - |Marker|];
    }
    assert s[p + |Marker|..e] == t;
  }

  /** A match at `p` with no match before it is the leftmost one, so its text is the token. */
  lemma LeftmostUnique(s: string, p: nat, t: string, p': int, u: string)
    requires MatchAt(s, p, p + |Marker| + |t|) && t == s[p + |Marker|..p + |Marker| + |t|]
    requires forall q :: 0 <= q < p ==> !MatchesAt(s, q)
    requires FirstMatch(s, p', u)
    ensures u == t
  {
    assert MatchesAt(s, p');
    assert MatchesAt(s, p);
    assert p' == p;
    MatchEnd(s, p, p + |Marker| + |u|);
    MatchEnd(s, p, p + |Marker| + |t|);
  }
}
