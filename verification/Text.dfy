// Strings as the C sources see them: zero-terminated contents of a buffer, the C locale's
// character classes, and the substring search that several components share.
module Text {

  datatype Option<+T> = None | Some(value: T)

  const NUL: char := '\0'

  lemma Assoc<T>(a: seq<T>, b: seq<T>, c: seq<T>)
    ensures a + b + c == a + (b + c)
  {
  }

  lemma SliceBehind(s: string, n: nat, j: nat, len: nat)
    requires n + j + len <= |s|
    ensures s[n..][j..j + len] == s[n + j..n + j + len]
  {
    var a, b := s[n..][j..j + len], s[n + j..n + j + len];
    forall k | 0 <= k < len
      ensures a[k] == b[k]
    {
      assert s[n..][j + k] == s[n + j + k];
    }
  }

  /** The C string held in a buffer: everything before the first zero byte. */
  function CString(buffer: seq<char>): string {
    if buffer == [] || buffer[0] == NUL then "" else [buffer[0]] + CString(buffer[1..])
  }

  /** A buffer whose first zero byte is at `n` holds exactly its first `n` characters. */
  lemma {:induction false} CStringIsPrefix(buffer: seq<char>, n: nat)
    requires n < |buffer| && buffer[n] == NUL
    requires forall i :: 0 <= i < n ==> buffer[i] != NUL
    ensures CString(buffer) == buffer[..n]
  {
    if n > 0 {
      CStringIsPrefix(buffer[1..], n - 1);
      assert buffer[..n] == [buffer[0]] + buffer[1..][..n - 1];
    }
  }

  /** What a buffer holds once `text` and a zero byte have been written to its front. */
  lemma TextStored(buffer: seq<char>, text: string)
    requires |text| < |buffer| && buffer[..|text|] == text && buffer[|text|] == NUL && NUL !in text
    ensures NUL in buffer && CString(buffer) == text
  {
    forall i | 0 <= i < |text|
      ensures buffer[i] != NUL
    {
      assert buffer[i] == text[i];
      assert text[i] in text;
    }
    CStringIsPrefix(buffer, |text|);
  }

  predicate Distinct(names: seq<string>) {
    forall i, j :: 0 <= i < j < |names| ==> names[i] != names[j]
  }

  /** isspace() in the C locale. */
  predicate IsSpace(c: char) {
    c == ' ' || ('\t' <= c <= '\r')
  }

  function Lower(c: char): char {
    if 'A' <= c <= 'Z' then c - 'A' + 'a' else c
  }

  /** strcasecmp(a, b) == 0 */
  predicate SameIgnoringCase(a: string, b: string) {
    |a| == |b| && forall i :: 0 <= i < |a| ==> Lower(a[i]) == Lower(b[i])
  }

  /** `needle` stands at offset `i` of `hay`. */
  predicate OccursAt(hay: string, needle: string, i: nat) {
    i + |needle| <= |hay| && hay[i..i + |needle|] == needle
  }

  /** strstr(hay, needle) != NULL */
  predicate Contains(hay: string, needle: string) {
    exists i: nat | i <= |hay| :: OccursAt(hay, needle, i)
  }

  /** The first `n` characters of `s`, or all of it when it is shorter. */
  function Clip(s: string, n: nat): (r: string)
    ensures |r| <= n && r <= s
    ensures |s| <= n ==> r == s
  {
    if |s| <= n then s else s[..n]
  }

  // strtol in base 10: leading white space, a sign, digits up to the first other character,
  // saturating at the ends of a 64-bit long
  const LONG_MAX: int := 0x7fff_ffff_ffff_ffff

  function Digits(s: string, value: nat): nat {
    if s == "" || !('0' <= s[0] <= '9') then value
    else Digits(s[1..], 10 * value + (s[0] as int - '0' as int))
  }

  function Strtol(s: string): (r: int)
    ensures -LONG_MAX - 1 <= r <= LONG_MAX
  {
    if s != "" && IsSpace(s[0]) then Strtol(s[1..])
    else if s != "" && s[0] == '-' then
      var v: int := 0 - Digits(s[1..], 0);
      if v < -LONG_MAX - 1 then -LONG_MAX - 1 else v
    else
      var v := Digits(if s != "" && s[0] == '+' then s[1..] else s, 0);
      if v > LONG_MAX then LONG_MAX else v
  }
}
