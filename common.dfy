/** Definitions shared by both front ends of the guessing game: an optional
    value, the range the secret is drawn from, and the normalisation the
    console applies to typed answers (str.strip and str.lower). */
module Common {

  datatype Option<T> = None | Some(value: T)

  /** DEFAULT_MIN and DEFAULT_MAX: the secret and every accepted guess lie in [1, 100]. */
  const MinValue: int := 1
  const MaxValue: int := 100

  predicate InRange(n: int) {
    MinValue <= n <= MaxValue
  }

  function Abs(x: int): (r: nat)
    ensures r == x || r == -x
  {
    if x < 0 then -x else x
  }

  /** The ASCII characters that str.strip() removes: blank, tab, line feed,
      vertical tab, form feed, carriage return and the four separators
      0x1C to 0x1F. */
  predicate IsSpace(c: char) {
    c == ' ' || c == '\t' || c == '\n' || c == '\r' || c == '\U{B}' || c == '\U{C}'
    || ('\U{1C}' <= c <= '\U{1F}')
  }

  /** The number of whitespace characters that open s. */
  function CountLeading(s: string): (n: nat)
    ensures n <= |s|
    ensures n < |s| ==> !IsSpace(s[n])
  {
    if |s| > 0 && IsSpace(s[0]) then 1 + CountLeading(s[1..]) else 0
  }

  /** The characters CountLeading counts are whitespace. */
  lemma {:induction false} LeadingAreSpaces(s: string)
    ensures forall i :: 0 <= i < CountLeading(s) ==> IsSpace(s[i])
    decreases |s|
  {
    if |s| > 0 && IsSpace(s[0]) {
      LeadingAreSpaces(s[1..]);
      forall i | 0 < i < CountLeading(s)
        ensures IsSpace(s[i])
      {
        assert s[i] == s[1..][i - 1];
      }
    }
  }

  /** The number of whitespace characters that close s. */
  function CountTrailing(s: string): (n: nat)
    ensures n <= |s|
    ensures n < |s| ==> !IsSpace(s[|s| - 1 - n])
    ensures n == |s| && s != [] ==> IsSpace(s[0])
  {
    if |s| > 0 && IsSpace(s[|s| - 1]) then 1 + CountTrailing(s[..|s| - 1]) else 0
  }

  /** The characters CountTrailing counts are whitespace. */
  lemma {:induction false} TrailingAreSpaces(s: string)
    ensures forall i :: |s| - CountTrailing(s) <= i < |s| ==> IsSpace(s[i])
    decreases |s|
  {
    if |s| > 0 && IsSpace(s[|s| - 1]) {
      TrailingAreSpaces(s[..|s| - 1]);
      forall i | |s| - CountTrailing(s) <= i < |s| - 1
        ensures IsSpace(s[i])
      {
        assert s[i] == s[..|s| - 1][i];
      }
    }
  }

  /** str.strip(): the piece of s that starts after its leading whitespace,
      with no whitespace at either end. */
  function Strip(s: string): (r: string)
    ensures CountLeading(s) + |r| <= |s| && r == s[CountLeading(s)..CountLeading(s) + |r|]
    ensures r == [] || (!IsSpace(r[0]) && !IsSpace(r[|r| - 1]))
  {
    var t := s[CountLeading(s)..];
    t[..|t| - CountTrailing(t)]
  }

  /** Strip removes whitespace and nothing else: every character of s outside
      the part it keeps is whitespace. */
  lemma StripRemovesOnlySpaces(s: string)
    ensures forall i :: 0 <= i < |s| && !(CountLeading(s) <= i < CountLeading(s) + |Strip(s)|) ==> IsSpace(s[i])
  {
    var a := CountLeading(s);
    var t := s[a..];
    LeadingAreSpaces(s);
    TrailingAreSpaces(t);
    forall i | a + |Strip(s)| <= i < |s|
      ensures IsSpace(s[i])
    {
      assert s[i] == t[i - a];
    }
  }

  /** ASCII case folding as str.lower() does it on ASCII letters. */
  function LowerChar(c: char): (d: char)
    ensures 'A' <= c <= 'Z' ==> 'a' <= d <= 'z' && d as int - 'a' as int == c as int - 'A' as int
    ensures !('A' <= c <= 'Z') ==> d == c
  {
    if 'A' <= c <= 'Z' then (c as int - 'A' as int + 'a' as int) as char else c
  }

  /** str.lower() restricted to ASCII: every character folded in place, so
      each capital becomes the small letter at the same place in the
      alphabet, no capital is left and every other character stays as it was. */
  function Lower(s: string): (r: string)
    ensures |r| == |s|
    ensures forall i :: 0 <= i < |r| ==> !('A' <= r[i] <= 'Z')
    ensures forall i :: 0 <= i < |s| && !('A' <= s[i] <= 'Z') ==> r[i] == s[i]
    ensures forall i :: 0 <= i < |s| && 'A' <= s[i] <= 'Z' ==> r[i] as int - 'a' as int == s[i] as int - 'A' as int
  {
    seq(|s|, i requires 0 <= i < |s| => LowerChar(s[i]))
  }

  /** The normal form the console compares answers in: strip(), then lower(). */
  function Normalize(s: string): string {
    Lower(Strip(s))
  }

  /** Answers the console reads as "yes": s, si, y, yes (adivina_numero.py:162, 192). */
  function IsYes(answer: string): (yes: bool)
    ensures yes ==> Strip(answer) != [] && LowerChar(Strip(answer)[0]) in {'s', 'y'}
  {
    var w := Normalize(answer);
    assert w != [] ==> w[0] == LowerChar(Strip(answer)[0]);
    w == "s" || w == "si" || w == "y" || w == "yes"
  }

  /** Answers the replay prompt reads as "no": n, no (adivina_numero.py:194). */
  function IsNo(answer: string): (no: bool)
    ensures no ==> Strip(answer) != [] && LowerChar(Strip(answer)[0]) == 'n'
  {
    var w := Normalize(answer);
    assert w != [] ==> w[0] == LowerChar(Strip(answer)[0]);
    w == "n" || w == "no"
  }

  /** The yes answers, spelled out: once stripped, an answer is a yes exactly
      when it is s, si, y or yes in any mix of capitals. */
  lemma {:induction false} YesSpellings(answer: string)
    ensures IsYes(answer)
        <==> Strip(answer) in {"s", "S", "si", "sI", "Si", "SI", "y", "Y",
                               "yes", "yeS", "yEs", "yES", "Yes", "YeS", "YEs", "YES"}
  {
    var t := Strip(answer);
    if IsYes(answer) {
      assert |Lower(t)| == |t|;
      if |t| == 1 {
        assert t == [t[0]];
      } else if |t| == 2 {
        assert t == [t[0], t[1]];
      } else {
        assert t == [t[0], t[1], t[2]];
      }
    }
  }

  /** The no answers, spelled out: once stripped, an answer is a no exactly
      when it is n or no in any mix of capitals. */
  lemma {:induction false} NoSpellings(answer: string)
    ensures IsNo(answer) <==> Strip(answer) in {"n", "N", "no", "nO", "No", "NO"}
  {
    var t := Strip(answer);
    if IsNo(answer) {
      assert |Lower(t)| == |t|;
      if |t| == 1 {
        assert t == [t[0]];
      } else {
        assert t == [t[0], t[1]];
      }
    }
  }

  /** No answer is read both as a yes and as a no. */
  lemma YesExcludesNo(answer: string)
    ensures !(IsYes(answer) && IsNo(answer))
  {
  }

  /** Surrounding blanks and capitals do not change how an answer is read. */
  lemma YesExample()
    ensures IsYes(" YES ")
  {
    assert CountLeading(" YES ") == 1;
    assert CountTrailing(" YES ") == 1;
    assert Strip(" YES ") == "YES";
    assert Lower("YES") == "yes";
  }
}
