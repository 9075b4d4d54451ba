/**
 * String helpers shared by the server and the client: JavaScript's notion of
 * white space (used by `String.prototype.trim` and by the `\s` class of a
 * regular expression), `trim` itself, and the ASCII part of `toLowerCase`.
 */
module Text {

  /** ECMAScript WhiteSpace and LineTerminator code points: TAB, VT, FF, SP,
      NBSP, ZWNBSP, the Unicode space separators (category Zs), LF, CR,
      LINE SEPARATOR and PARAGRAPH SEPARATOR. */
  predicate IsSpace(c: char) {
    || c == '\t' || c == '\n' || c == '\U{B}' || c == '\U{C}' || c == '\r' || c == ' '
    || c == '\U{A0}' || c == '\U{1680}' || ('\U{2000}' <= c <= '\U{200A}')
    || c == '\U{2028}' || c == '\U{2029}' || c == '\U{202F}' || c == '\U{205F}'
    || c == '\U{3000}' || c == '\U{FEFF}'
  }

  /** Every character of `s` is white space (the empty string included). */
  predicate AllSpace(s: string) {
    forall i | 0 <= i < |s| :: IsSpace(s[i])
  }

  /** `s` neither starts nor ends with white space. */
  predicate Trimmed(s: string) {
    s == [] || (!IsSpace(s[0]) && !IsSpace(s[|s| - 1]))
  }

  /** The first position at or after `i` that does not hold white space,
      or `|s|` when there is none. */
  function ContentStart(s: string, i: nat): (k: nat)
    requires i <= |s|
    ensures i <= k <= |s|
    ensures forall j | i <= j < k :: IsSpace(s[j])
    ensures k < |s| ==> !IsSpace(s[k])
    decreases |s| - i
  {
    if i < |s| && IsSpace(s[i]) then ContentStart(s, i + 1) else i
  }

  /** The position right after the last character before `j` that is not
      white space, or 0 when there is none. */
  function ContentEnd(s: string, j: nat): (k: nat)
    requires j <= |s|
    ensures k <= j
    ensures forall m | k <= m < j :: IsSpace(s[m])
    ensures k > 0 ==> !IsSpace(s[k - 1])
  {
    if j > 0 && IsSpace(s[j - 1]) then ContentEnd(s, j - 1) else j
  }

  /** How many white-space characters `s` starts with. */
  function LeadingSpace(s: string): (n: nat)
    ensures n <= |s|
    ensures AllSpace(s[..n])
    ensures n < |s| ==> !IsSpace(s[n])
  {
    var n := ContentStart(s, 0);
    assert forall j | 0 <= j < n :: s[..n][j] == s[j];
    n
  }

  /** `String.prototype.trim`: `s` with its white-space prefix and suffix
      removed. The result is trimmed, no longer than `s`, and empty exactly
      when `s` is all white space; `TrimIsSlice` says where it sits in `s`. */
  function Trim(s: string): (r: string)
    ensures |r| <= |s|
    ensures Trimmed(r)
    ensures r == [] <==> AllSpace(s)
  {
    var a := ContentStart(s, 0);
    if a == |s| then []
    else
      var b := ContentEnd(s, |s|);
      assert a < b by {
        assert !IsSpace(s[a]);
      }
      assert !AllSpace(s) by {
        assert !IsSpace(s[a]);
      }
      assert s[a..b][0] == s[a] && s[a..b][b - a - 1] == s[b - 1];
      s[a..b]
  }

  /** The result of `trim` is the piece of `s` that starts right after its
      leading white space, and everything around that piece is white
      space. */
  lemma TrimIsSlice(s: string)
    ensures var r := Trim(s); var n := LeadingSpace(s);
      && n + |r| <= |s| && r == s[n..n + |r|]
      && AllSpace(s[..n]) && AllSpace(s[n + |r|..])
  {
    var a := ContentStart(s, 0);
    var r := Trim(s);
    if a < |s| {
      var b := ContentEnd(s, |s|);
      assert !IsSpace(s[a]);
      assert a < b;
      assert r == s[a..b];
      assert forall m | 0 <= m < |s| - b :: s[b..][m] == s[b + m];
    } else {
      assert s[|s|..] == [];
    }
  }

  /** Trimming a string that is already trimmed changes nothing. */
  lemma {:induction false} TrimOfTrimmed(s: string)
    requires Trimmed(s)
    ensures Trim(s) == s
  {
    if s != [] {
      assert ContentStart(s, 0) == 0;
      assert ContentEnd(s, |s|) == |s|;
      assert s[0..|s|] == s;
    }
  }

  /** `trim` is idempotent. */
  lemma TrimIdempotent(s: string)
    ensures Trim(Trim(s)) == Trim(s)
  {
    TrimOfTrimmed(Trim(s));
  }

  /** The ASCII part of `toLowerCase`: `A`..`Z` become `a`..`z`. */
  function LowerChar(c: char): (d: char)
    ensures 'A' <= c <= 'Z' ==> 'a' <= d <= 'z' && d as int - c as int == 32
    ensures !('A' <= c <= 'Z') ==> d == c
  {
    if 'A' <= c <= 'Z' then (c as int + 32) as char else c
  }

  /** `toLowerCase`, character by character. */
  function Lower(s: string): (r: string)
  {
    seq(|s|, i requires 0 <= i < |s| => LowerChar(s[i]))
  }

  /** A lower-cased string holds no ASCII capital letter. */
  predicate NoCapitals(s: string) {
    forall i | 0 <= i < |s| :: !('A' <= s[i] <= 'Z')
  }

  /** Lower-casing keeps the length, removes every capital, and keeps every
      character that is not a capital letter (so white space, `@` and `.`
      stay where they were). */
  lemma LowerFacts(s: string)
    ensures |Lower(s)| == |s| && NoCapitals(Lower(s))
    ensures forall i | 0 <= i < |s| && !('A' <= s[i] <= 'Z') :: Lower(s)[i] == s[i]
    ensures forall i | 0 <= i < |s| :: IsSpace(Lower(s)[i]) == IsSpace(s[i])
  {
  }

  /** Lower-casing keeps a trimmed string trimmed: it never turns a space
      into a non-space or back. */
  lemma {:induction false} LowerOfTrimmed(s: string)
    requires Trimmed(s)
    ensures Trimmed(Lower(s))
  {
    LowerFacts(s);
  }
}
