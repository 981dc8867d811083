/** Models of the Python string built-ins the card-key helpers use, for ASCII text. */
module Strings {

  predicate IsUpper(c: char) { 'A' <= c <= 'Z' }

  /** `c.lower()` for one ASCII character. */
  function LowerChar(c: char): (r: char)
    ensures !IsUpper(r)
    ensures IsUpper(c) ==> r as int == c as int + 32
    ensures !IsUpper(c) ==> r == c
  {
    if IsUpper(c) then (c as int + 32) as char else c
  }

  /** `s.lower()`: every letter lowercased, everything else kept, position by position. */
  function ToLower(s: string): (r: string)
    ensures |r| == |s|
    ensures forall i :: 0 <= i < |s| ==> r[i] == LowerChar(s[i])
  {
    seq(|s|, i requires 0 <= i < |s| => LowerChar(s[i]))
  }

  /** `s.replace(from, to)` for a one-character `from`: every occurrence replaced in place. */
  function ReplaceChar(s: string, from: char, to: char): (r: string)
    ensures |r| == |s|
    ensures forall i :: 0 <= i < |s| ==> r[i] == if s[i] == from then to else s[i]
  {
    seq(|s|, i requires 0 <= i < |s| => if s[i] == from then to else s[i])
  }

  /** `s.replace(pat, rep)`: non-overlapping occurrences of `pat`, scanned left to right. */
  function ReplaceAll(s: string, pat: string, rep: string): string
    requires pat != []
    decreases |s|
  {
    if |s| < |pat| then s
    else if s[..|pat|] == pat then rep + ReplaceAll(s[|pat|..], pat, rep)
    else [s[0]] + ReplaceAll(s[1..], pat, rep)
  }

  /** Replacing `pat` in `s + pat`, where no character of `s` can start an occurrence, removes exactly the final `pat`. */
  lemma {:induction false} ReplaceAllSuffix(s: string, pat: string, rep: string)
    requires pat != [] && pat[0] !in s
    ensures ReplaceAll(s + pat, pat, rep) == s + rep
    decreases |s|
  {
    var t := s + pat;
    if s == [] {
      assert t == pat;
      assert t[..|pat|] == pat;
      assert t[|pat|..] == [];
      assert ReplaceAll([], pat, rep) == [];
    } else {
      assert t[0] == s[0];
      assert t[..|pat|][0] != pat[0];
      assert ReplaceAll(t, pat, rep) == [t[0]] + ReplaceAll(t[1..], pat, rep);
      assert t[1..] == s[1..] + pat;
      assert pat[0] !in s[1..];
      ReplaceAllSuffix(s[1..], pat, rep);
      assert s == [s[0]] + s[1..];
    }
  }

  /** `s.rstrip(c)` for one character `c`: all trailing copies of `c` removed. */
  function RStrip(s: string, c: char): (r: string)
    ensures r <= s
    ensures r == [] || r[|r| - 1] != c
    ensures forall i :: |r| <= i < |s| ==> s[i] == c
  {
    if s == [] then []
    else if s[|s| - 1] == c then RStrip(s[..|s| - 1], c)
    else s
  }

  /** Decimal digits of a natural number, as `str(n)` prints it. */
  function NatToDecimal(n: nat): (r: string)
    ensures r != []
    ensures forall i :: 0 <= i < |r| ==> '0' <= r[i] <= '9'
  {
    if n < 10 then [('0' as int + n) as char]
    else NatToDecimal(n / 10) + [('0' as int + n % 10) as char]
  }

  /** `str(n)` for a one- and a two-digit number, as used in the default player names. */
  lemma NatToDecimalExamples()
    ensures NatToDecimal(1) == "1"
    ensures NatToDecimal(12) == "12"
  {
    assert NatToDecimal(12) == NatToDecimal(1) + "2";
  }
}
