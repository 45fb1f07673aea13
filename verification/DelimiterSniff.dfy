/** Guessing a CSV file's delimiter from its first line, ignoring quoted text. */
module DelimiterSniff {

  function Quotes(s: string): nat {
    if s == "" then 0 else Quotes(s[..|s| - 1]) + if s[|s| - 1] == '"' then 1 else 0
  }

  /** An even number of quotes precedes position `i`. */
  predicate Outside(s: string, i: nat)
    requires i <= |s|
  {
    Quotes(s[..i]) % 2 == 0
  }

  predicate Breaks(s: string, i: nat) {
    i < |s| && s[i] == '\n' && Outside(s, i)
  }

  /** The first unquoted newline, or the end of the sample. */
  predicate FirstLineEnds(s: string, n: nat) {
    n <= |s| && (n == |s| || Breaks(s, n)) && forall i :: 0 <= i < n ==> !Breaks(s, i)
  }

  /** Unquoted occurrences of `c` among the first `n` characters. */
  function Score(s: string, c: char, n: nat): nat
    requires n <= |s|
  {
    if n == 0 then 0 else Score(s, c, n - 1) + if s[n - 1] == c && Outside(s, n - 1) then 1 else 0
  }

  /** Most frequent wins; comma wins every tie, tab wins its tie with semicolon. */
  predicate Wins(best: char, comma: nat, tab: nat, semicolon: nat) {
    || (best == ',' && tab <= comma && semicolon <= comma)
    || (best == '\t' && comma < tab && semicolon <= tab)
    || (best == ';' && comma < semicolon && tab < semicolon)
  }

  method SniffDelimiter(sample: string) returns (best: char)
    ensures exists n :: FirstLineEnds(sample, n)
                        && Wins(best, Score(sample, ',', n), Score(sample, '\t', n), Score(sample, ';', n))
  {
    if sample == "" {
      assert FirstLineEnds(sample, 0);
      return ',';
    }
    var comma, tab, semicolon := 0, 0, 0;
    var inQuote := false;
    var i := 0;
    while i < |sample|
      invariant i <= |sample| && inQuote == !Outside(sample, i)
      invariant comma == Score(sample, ',', i) && tab == Score(sample, '\t', i) && semicolon == Score(sample, ';', i)
      invariant forall j :: 0 <= j < i ==> !Breaks(sample, j)
    {
      var c := sample[i];
      assert sample[..i + 1][..i] == sample[..i];
      if c == '"' {
        inQuote := !inQuote;
      } else if !inQuote {
        if c == '\n' { break; }
        if c == ',' { comma := comma + 1; }
        if c == '\t' { tab := tab + 1; }
        if c == ';' { semicolon := semicolon + 1; }
      }
      i := i + 1;
    }
    assert FirstLineEnds(sample, i);
    best := ',';
    var most := comma;
    if tab > most { best, most := '\t', tab; }
    if semicolon > most { best := ';'; }
  }

  lemma FirstLineIsUnique(s: string, n: nat, m: nat)
    requires FirstLineEnds(s, n) && FirstLineEnds(s, m)
    ensures n == m
  {}

  /** What follows the first line has no influence on the score. */
  lemma {:induction false} ScoreOfPrefix(s: string, more: string, c: char, n: nat)
    requires n <= |s|
    ensures Score(s + more, c, n) == Score(s, c, n)
  {
    if n > 0 {
      ScoreOfPrefix(s, more, c, n - 1);
      assert (s + more)[..n - 1] == s[..n - 1];
    }
  }
}
