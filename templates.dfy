/**
 * Category templates (main.go:42-46) and the choice of the question sent for
 * a prompt (main.go:672-677): a known category wraps the prompt in its
 * template, any other category, or none, sends the prompt as it is.
 */
module Templates {
  /** The text the `islam` template puts in front of the prompt. */
  const IslamPreamble := Islam0 + Islam1 + Islam2 + Islam3
  const Islam0 := "Respond only from qualified Islamic "
  const Islam1 := "sources like the Quran and Sunnah of "
  const Islam2 := "the prophet Muhammad and related "
  const Islam3 := "publications.\n\n"

  /** The text the `news` template puts in front of the prompt. */
  const NewsPreamble := News0 + News1
  const News0 := "Respond based on current factual news "
  const News1 := "occuring in real time around the world.\n\n"

  /** The category templates, each with one `%s` where the prompt goes. */
  const Templates: map<string, string> := map[
    "general" := "%s",
    "islam" := IslamPreamble + "%s",
    "news" := NewsPreamble + "%s"
  ]

  /** The text each template puts in front of the prompt. */
  const Preambles: map<string, string> := map["general" := "", "islam" := IslamPreamble, "news" := NewsPreamble]

  /**
   * `fmt.Sprintf(t, arg)` for a format whose one verb is `%s`: the first `%s`
   * is replaced by `arg`, every other character stays.
   */
  function Format(t: string, arg: string): (r: string)
    ensures "%s" !in Pairs(t) ==> r == t
    decreases |t|
  {
    if t == [] then []
    else if |t| >= 2 && t[0] == '%' && t[1] == 's' then
      assert Pairs(t)[0] == "%s";
      arg + t[2..]
    else
      assert forall k :: 0 <= k < |t| - 2 ==> Pairs(t[1..])[k] == Pairs(t)[k + 1];
      [t[0]] + Format(t[1..], arg)
  }

  /** The two-character windows of `t`. */
  function Pairs(t: string): (ps: seq<string>)
    ensures |ps| == if |t| < 2 then 0 else |t| - 1
  {
    if |t| < 2 then [] else seq(|t| - 1, k requires 0 <= k < |t| - 1 => t[k..k + 2])
  }

  /** A format `pre%spost` whose `pre` holds no `%`: the argument lands between the two. */
  lemma {:induction false} FormatAt(pre: string, post: string, arg: string)
    requires '%' !in pre
    ensures Format(pre + ("%s" + post), arg) == pre + (arg + post)
    decreases |pre|
  {
    if pre == [] {
      assert pre + ("%s" + post) == "%s" + post;
      FormatVerb(post, arg);
      assert pre + (arg + post) == arg + post;
    } else {
      var c, tail := pre[0], pre[1..];
      assert '%' !in tail by {
        assert forall k :: 0 <= k < |tail| ==> tail[k] == pre[k + 1];
      }
      FormatAt(tail, post, arg);
      Uncons(pre, "%s" + post);
      FormatOther(c, tail + ("%s" + post), arg);
      Uncons(pre, arg + post);
    }
  }

  /** A non-empty text in front of `x` is its first character in front of the rest and `x`. */
  lemma Uncons(pre: string, x: string)
    requires pre != []
    ensures pre + x == [pre[0]] + (pre[1..] + x)
  {
    assert pre == [pre[0]] + pre[1..];
  }

  /** At a `%s` the argument is put in and the rest is copied. */
  lemma FormatVerb(post: string, arg: string)
    ensures Format("%s" + post, arg) == arg + post
  {
    assert ("%s" + post)[2..] == post;
  }

  /** A character other than `%` is copied. */
  lemma FormatOther(c: char, t: string, arg: string)
    requires c != '%'
    ensures Format([c] + t, arg) == [c] + Format(t, arg)
  {
    assert ([c] + t)[1..] == t;
  }

  /**
   * The question sent for `prompt` in `category`: for a known category its
   * preamble followed by the prompt, otherwise (the empty category included)
   * the prompt alone.
   */
  function Question(category: string, prompt: string): (q: string)
    ensures category in Templates ==> category in Preambles && q == Preambles[category] + prompt
    ensures category !in Templates ==> q == prompt
    ensures category == "general" ==> q == prompt
  {
    if |category| > 0 && category in Templates then
      TemplateShape(category);
      FormatAt(Preambles[category], "", prompt);
      Format(Templates[category], prompt)
    else prompt
  }

  lemma IslamPreambleClean()
    ensures '%' !in IslamPreamble
  {
    assert '%' !in Islam0;
    assert '%' !in Islam1;
    assert '%' !in Islam2;
    assert '%' !in Islam3;
  }

  lemma NewsPreambleClean()
    ensures '%' !in NewsPreamble
  {
    assert '%' !in News0;
    assert '%' !in News1;
  }

  /** Every template is its preamble followed by `%s`, and no preamble holds a `%`. */
  lemma TemplateShape(category: string)
    requires category in Templates
    ensures category in Preambles && Templates[category] == Preambles[category] + ("%s" + "")
    ensures '%' !in Preambles[category]
  {
    assert Templates.Keys == Preambles.Keys == {"general", "islam", "news"};
    IslamPreambleClean();
    NewsPreambleClean();
  }
}
