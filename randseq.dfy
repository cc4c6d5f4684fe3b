/**
 * RandSeq: a string of `n` characters drawn from an alphabet -- the 62 ASCII
 * letters and digits, or the one string the caller passes instead.  The random
 * draw is a free choice of index, so every result below holds for any source
 * of randomness.
 */
module RandomSequence {

  const UpperCase: string := "ABCDEFGHIJKLMNOPQRSTUVWXYZ"
  const LowerCase: string := "abcdefghijklmnopqrstuvwxyz"
  const Digits: string := "0123456789"

  /** The default alphabet: the 26 upper-case letters, the 26 lower-case letters and the 10 digits. */
  const Letters: string := UpperCase + LowerCase + Digits

  /** Every character of `s` lies between `lo` and `hi`. */
  predicate Within(s: string, lo: char, hi: char)
  {
    forall i :: 0 <= i < |s| ==> lo <= s[i] <= hi
  }

  /** The default alphabet is 62 ASCII characters from '0' to 'z': one byte each, and no NUL. */
  lemma LettersInRange()
    ensures |Letters| == 62
    ensures forall c :: c in Letters ==> '0' <= c <= 'z'
  {
    assert Within(UpperCase, 'A', 'Z');
    assert Within(LowerCase, 'a', 'z');
    assert Within(Digits, '0', '9');
  }

  /** A Go call either returns a value or panics with a message. */
  datatype Outcome = Returned(s: string) | Panicked(message: string)

  const TooManyParameters: string := "too many parameters"

  /** What rand.Intn panics with when asked for an index into an empty range. */
  const InvalidIntn: string := "invalid argument to Intn"

  /** The alphabet for the extra parameters: the default with none, the parameter with one. */
  function Alphabet(params: seq<string>): (chars: string)
    requires |params| <= 1
    ensures params == [] ==> chars == Letters
    ensures |params| == 1 ==> chars == params[0]
  {
    if params == [] then Letters else params[0]
  }

  /**
   * RandSeq(n, params...): panics with more than one extra parameter, and when
   * a character has to be drawn from an empty alphabet; otherwise returns
   * max(n, 0) characters, each from the alphabet.
   */
  method RandSeq(n: int, params: seq<string>) returns (r: Outcome)
    ensures |params| > 1 ==> r == Panicked(TooManyParameters)
    ensures |params| <= 1 && n > 0 && Alphabet(params) == [] ==> r == Panicked(InvalidIntn)
    ensures |params| <= 1 && (n <= 0 || Alphabet(params) != []) ==> r.Returned?
    ensures r.Returned? ==> |params| <= 1
    ensures r.Returned? ==> |r.s| == if n <= 0 then 0 else n
    ensures r.Returned? ==> forall c :: c in r.s ==> c in Alphabet(params)
  {
    var chars: string;
    if |params| == 0 {
      chars := Letters;
    } else if |params| == 1 {
      chars := params[0];
    } else {
      return Panicked(TooManyParameters);
    }
    var b: string := [];
    var i := 0;
    while i < n
      invariant 0 <= i && (n <= 0 ==> i == 0) && (n > 0 ==> i <= n)
      invariant |b| == i
      invariant |chars| == 0 ==> i == 0
      invariant forall c :: c in b ==> c in chars
    {
      if |chars| == 0 {
        return Panicked(InvalidIntn);
      }
      var k :| 0 <= k < |chars|;
      b := b + [chars[k]];
      i := i + 1;
    }
    r := Returned(b);
  }
}
