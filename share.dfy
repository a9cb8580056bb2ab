/**
 * Short ids of shared chats: `random(i)` turns `i` random bytes into letters
 * and digits (main.go:704-718), and the share handler accepts an id only when
 * `^[a-zA-Z0-9]+$`, compiled with POSIX flags, matches it (main.go:735).
 * Without Go's `OneLine` flag `^` and `$` match at every line boundary, so the
 * check as written accepts an id as soon as one of its lines is a run of the
 * class; `MatchesWholeId` is the whole-text check it evidently intends.
 */
module Share {
  newtype byte = x: int | 0 <= x < 256

  /** The 62 characters an id is drawn from, in the source's order. */
  const Alphanum := "ABCDEFGHIJKLMNOPQRSTUVWXYZabcdefghijklmnopqrstuvwxyz0123456789"

  /** The character class `[a-zA-Z0-9]`. */
  predicate IsAlnum(c: char) {
    'a' <= c <= 'z' || 'A' <= c <= 'Z' || '0' <= c <= '9'
  }

  /** `^` without `OneLine`: position `a` is the start of the text or follows a newline. */
  predicate LineStart(id: string, a: int)
    requires 0 <= a <= |id|
  {
    a == 0 || id[a - 1] == '\n'
  }

  /** `$` without `OneLine`: position `b` is the end of the text or precedes a newline. */
  predicate LineEnd(id: string, b: int)
    requires 0 <= b <= |id|
  {
    b == |id| || id[b] == '\n'
  }

  /** `id[a..b]` is a whole line of `id`, non-empty and made of the class. */
  ghost predicate ClassLine(id: string, a: int, b: int) {
    0 <= a < b <= |id| && LineStart(id, a) && LineEnd(id, b) &&
    forall k :: a <= k < b ==> IsAlnum(id[k])
  }

  /** The ids the handler as written accepts: some line is one or more characters of the class. */
  ghost predicate IsShareId(id: string) {
    exists a, b :: ClassLine(id, a, b)
  }

  /** The ids the handler evidently means to accept: one or more characters of the class, and nothing else. */
  ghost predicate IsWholeId(id: string) {
    |id| > 0 && forall k :: 0 <= k < |id| ==> IsAlnum(id[k])
  }

  predicate NoNewline(id: string) {
    forall k :: 0 <= k < |id| ==> id[k] != '\n'
  }

  /** The alphabet is exactly the character class, each character once. */
  lemma AlphanumIsClass()
    ensures |Alphanum| == 62
    ensures forall k :: 0 <= k < |Alphanum| ==> IsAlnum(Alphanum[k]) && Alphanum[k] as int < 128
    ensures forall c :: IsAlnum(c) ==> c in Alphanum
    ensures forall j, k :: 0 <= j < k < |Alphanum| ==> Alphanum[j] != Alphanum[k]
  {
    forall k | 0 <= k < |Alphanum| ensures IsAlnum(Alphanum[k]) && Alphanum[k] as int < 128 {
      AlphanumOrder(k);
    }
    forall c | IsAlnum(c) ensures c in Alphanum {
      var k := if 'A' <= c <= 'Z' then c as int - 'A' as int
               else if 'a' <= c <= 'z' then 26 + c as int - 'a' as int
               else 52 + c as int - '0' as int;
      AlphanumOrder(k);
    }
    forall j, k | 0 <= j < k < |Alphanum| ensures Alphanum[j] != Alphanum[k] {
      AlphanumOrder(j);
      AlphanumOrder(k);
    }
  }

  const Capitals := "ABCDEFGHIJKLMNOPQRSTUVWXYZ"
  const Smalls := "abcdefghijklmnopqrstuvwxyz"
  const Digits := "0123456789"

  lemma AlphanumRuns()
    ensures Alphanum == Capitals + Smalls + Digits
  {
  }

  lemma CapitalAt(k: int)
    requires 0 <= k < 26
    ensures Capitals[k] as int == 'A' as int + k
  {
  }

  lemma SmallAt(k: int)
    requires 0 <= k < 26
    ensures Smalls[k] as int == 'a' as int + k
  {
  }

  lemma DigitAt(k: int)
    requires 0 <= k < 10
    ensures Digits[k] as int == '0' as int + k
  {
  }

  /** The alphabet is the capitals, then the small letters, then the digits. */
  lemma AlphanumOrder(k: int)
    requires 0 <= k < 62
    ensures k < 26 ==> Alphanum[k] as int == 'A' as int + k
    ensures 26 <= k < 52 ==> Alphanum[k] as int == 'a' as int + k - 26
    ensures 52 <= k ==> Alphanum[k] as int == '0' as int + k - 52
    ensures IsAlnum(Alphanum[k]) && Alphanum[k] as int < 128
  {
    AlphanumRuns();
    if k < 26 {
      assert Alphanum[k] == Capitals[k];
      CapitalAt(k);
    } else if k < 52 {
      assert Alphanum[k] == Smalls[k - 26];
      SmallAt(k - 26);
    } else {
      assert Alphanum[k] == Digits[k - 52];
      DigitAt(k - 52);
    }
  }

  /** The character byte `b` becomes: `alphanum[b % 62]`. */
  function Letter(b: byte): (c: char)
    ensures IsAlnum(c) && c as int < 128
  {
    AlphanumOrder(b as int % 62);
    Alphanum[b as int % 62]
  }

  /** The id the bytes `entropy` give, character by character. */
  function IdOf(entropy: seq<byte>): (id: string)
    ensures |id| == |entropy|
    ensures forall k :: 0 <= k < |id| ==> IsAlnum(id[k]) && id[k] == Alphanum[entropy[k] as int % 62]
  {
    seq(|entropy|, k requires 0 <= k < |entropy| => Letter(entropy[k]))
  }

  /**
   * `random(i)` with the `i` bytes `crypto/rand` reads as input: a buffer of
   * `i` bytes is filled, each byte is rewritten in place to the code of its
   * character, and the buffer is read as a string.
   */
  method Random(i: nat, entropy: seq<byte>) returns (id: string)
    requires |entropy| == i
    ensures id == IdOf(entropy)
    ensures |id| == i && forall k :: 0 <= k < |id| ==> id[k] in Alphanum
  {
    var bytes := new byte[i];
    for k := 0 to i
      invariant bytes[..k] == entropy[..k]
    {
      bytes[k] := entropy[k];
    }
    assert bytes[..] == entropy;
    for k := 0 to i
      invariant forall j :: 0 <= j < k ==> bytes[j] as int == Letter(entropy[j]) as int
      invariant forall j :: k <= j < i ==> bytes[j] == entropy[j]
    {
      bytes[k] := Letter(bytes[k]) as int as byte;
    }
    id := seq(i, k requires 0 <= k < i reads bytes => bytes[k] as int as char);
    AlphanumIsClass();
  }

  /**
   * `MatchString` of the POSIX-compiled `^[a-zA-Z0-9]+$` on `id`: true exactly
   * when some line of `id` is one or more characters of the class.
   */
  function MatchesShareId(id: string): (r: bool)
    ensures r <==> IsShareId(id)
  {
    MatchFromLines(id, 0);
    MatchFrom(id, 0)
  }

  /** The end of the line that holds position `i`: the next newline, or the end of the text. */
  function LineEndFrom(id: string, i: nat): (j: nat)
    requires i <= |id|
    ensures i <= j <= |id| && LineEnd(id, j)
    ensures forall k :: i <= k < j ==> id[k] != '\n'
    decreases |id| - i
  {
    if i == |id| || id[i] == '\n' then i else LineEndFrom(id, i + 1)
  }

  /** The line-by-line match from the line that starts at `i`. */
  function MatchFrom(id: string, i: nat): bool
    requires i <= |id| && LineStart(id, i)
    decreases |id| - i
  {
    var j := LineEndFrom(id, i);
    (i < j && AllAlnum(id, i, j)) || (j < |id| && MatchFrom(id, j + 1))
  }

  /** The scan of the class over `id[i..j]`. */
  function AllAlnum(id: string, i: nat, j: nat): (r: bool)
    requires i <= j <= |id|
    ensures r <==> forall k :: i <= k < j ==> IsAlnum(id[k])
    decreases j - i
  {
    i == j || (IsAlnum(id[i]) && AllAlnum(id, i + 1, j))
  }

  /** The line match from `i` finds exactly the class lines that start at or after `i`. */
  lemma {:induction false} MatchFromLines(id: string, i: nat)
    requires i <= |id| && LineStart(id, i)
    ensures MatchFrom(id, i) <==> exists a, b :: i <= a && ClassLine(id, a, b)
    decreases |id| - i
  {
    var j := LineEndFrom(id, i);
    if i < j && AllAlnum(id, i, j) {
      assert ClassLine(id, i, j);
    } else {
      forall a, b | i <= a && ClassLine(id, a, b)
        ensures j < |id| && j < a
      {
        LaterLine(id, i, j, a, b);
      }
      if j < |id| {
        MatchFromLines(id, j + 1);
      }
    }
  }

  /** A class line at or after `i` is the line of `i` itself, or starts past its end `j`. */
  lemma LaterLine(id: string, i: nat, j: nat, a: int, b: int)
    requires i <= j <= |id| && LineEnd(id, j)
    requires forall k :: i <= k < j ==> id[k] != '\n'
    requires i <= a && ClassLine(id, a, b)
    ensures (a == i && b == j) || (j < |id| && j < a)
  {
  }

  /** `MatchString` of `^[a-zA-Z0-9]+$` with `^` and `$` anchored at the ends of the text. */
  function MatchesWholeId(id: string): (r: bool)
    ensures r <==> IsWholeId(id)
  {
    |id| > 0 && AllAlnum(id, 0, |id|)
  }

  /** On an id without a newline the check as written and the whole-text check agree. */
  lemma OneLineAgree(id: string)
    requires NoNewline(id)
    ensures MatchesShareId(id) <==> MatchesWholeId(id)
  {
    if MatchesWholeId(id) {
      assert ClassLine(id, 0, |id|);
    }
    assert forall a, b :: ClassLine(id, a, b) ==> a == 0 && b == |id|;
  }

  /** Every id `random(i)` draws for `i >= 1`, such as the `random(8)` of the share handler, passes both checks. */
  lemma RandomIdAccepted(entropy: seq<byte>)
    requires |entropy| >= 1
    ensures MatchesShareId(IdOf(entropy)) && MatchesWholeId(IdOf(entropy))
  {
    assert ClassLine(IdOf(entropy), 0, |entropy|);
  }

  /**
   * An id with a character outside the class, such as `-`, `/` or `.`, fails
   * the whole-text check; the check as written refuses it only when the id
   * has no newline.
   */
  lemma OtherCharRefused(id: string, k: nat)
    requires k < |id| && !IsAlnum(id[k])
    ensures !MatchesWholeId(id)
    ensures NoNewline(id) ==> !MatchesShareId(id)
  {
    if NoNewline(id) {
      OneLineAgree(id);
    }
  }

  /** The check as written lets `abc` newline `../x` through, which the whole-text check refuses. */
  lemma NewlineIdAccepted()
    ensures MatchesShareId("abc\n../x") && !MatchesWholeId("abc\n../x")
    ensures '/' in "abc\n../x"
  {
    assert ClassLine("abc\n../x", 0, 3);
    OtherCharRefused("abc\n../x", 3);
  }
}
