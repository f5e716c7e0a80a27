// The bounded string appender and the space-separated token lists of common/common.c.
module Tokens {
  import opened Text

  const INT_MAX: int := 0x7fff_ffff

  // ----- vsnprintfcat -----

  datatype Appended = Appended(text: string, ret: int)

  /** What vsnprintfcat leaves in a buffer of `size` bytes that held `dst`, and what it returns,
      when the format expands to `text`. One byte stays unused besides the terminator. */
  function AppendText(dst: string, size: nat, text: string): Appended
    requires size > 0
  {
    var room := size - 1;
    if |dst| > room then Appended(dst, -1)
    else
      var written := if room == |dst| then "" else Clip(text, room - |dst| - 1);
      Appended(dst + written, if |dst| + |text| >= INT_MAX then -1 else |dst| + |text|)
  }

  ghost predicate Terminated(buffer: array<char>)
    reads buffer
  {
    NUL in buffer[..]
  }

  lemma {:induction false} CStringEnds(buffer: seq<char>)
    requires NUL in buffer
    ensures |CString(buffer)| < |buffer| && buffer[|CString(buffer)|] == NUL
    ensures CString(buffer) == buffer[..|CString(buffer)|] && NUL !in CString(buffer)
  {
    if buffer[0] != NUL {
      assert buffer == [buffer[0]] + buffer[1..];
      CStringEnds(buffer[1..]);
    }
  }

  /** vsnprintf(dst + len, n, ...): writes at most n - 1 characters and a terminator. */
  method PrintAt(dst: array<char>, len: nat, n: nat, text: string)
    requires len + n <= dst.Length
    modifies dst
    ensures n == 0 ==> dst[..] == old(dst[..])
    ensures n > 0 ==> dst[..] == old(dst[..len]) + Clip(text, n - 1) + [NUL] + old(dst[len + |Clip(text, n - 1)| + 1..])
  {
    if n > 0 {
      var out := Clip(text, n - 1) + [NUL];
      forall i | 0 <= i < |out| {
        dst[len + i] := out[i];
      }
    }
  }

  lemma AppendedHasNoNul(dst: string, size: nat, text: string)
    requires size > 0 && NUL !in dst && NUL !in text
    ensures NUL !in AppendText(dst, size, text).text
  {
  }

  /** vsnprintfcat */
  method AppendFormatted(dst: array<char>, size: nat, text: string) returns (ret: int)
    requires 0 < size <= dst.Length && Terminated(dst) && NUL !in text
    modifies dst
    ensures Terminated(dst)
    ensures Appended(CString(dst[..]), ret) == AppendText(old(CString(dst[..])), size, text)
    ensures dst[size..] == old(dst[size..])
  {
    CStringEnds(dst[..]);
    var have := CString(dst[..]);
    var len := |have|;
    var room := size - 1;
    if len > room {
      return -1;
    }
    PrintAt(dst, len, room - len, text);
    dst[room] := NUL;
    ghost var want := AppendText(have, size, text).text;
    AppendedHasNoNul(have, size, text);
    TextStored(dst[..], want);
    if len + |text| >= INT_MAX {
      return -1;
    }
    return len + |text|;
  }

  /** The appender loses nothing exactly when the result leaves one byte unused. */
  lemma AppendKeepsAllIffSpare(dst: string, size: nat, text: string)
    requires size > |dst| && text != ""
    ensures AppendText(dst, size, text).text == dst + text <==> |dst| + |text| + 2 <= size
    ensures dst <= AppendText(dst, size, text).text <= dst + text
    ensures |AppendText(dst, size, text).text| < size
  {
    var r := AppendText(dst, size, text).text;
    assert r == dst + r[|dst|..];
  }

  // ----- words of a list -----

  function WordLen(s: string): (n: nat)
    ensures n <= |s| && (n < |s| ==> s[n] == ' ')
    ensures ' ' !in s[..n]
  {
    if s == "" || s[0] == ' ' then 0
    else
      var n := 1 + WordLen(s[1..]);
      assert s[..n] == [s[0]] + s[1..][..n - 1];
      n
  }

  /** The words of a space-separated list; runs of spaces separate like one. */
  function Words(s: string): seq<string>
    decreases |s|
  {
    if s == "" then []
    else if s[0] == ' ' then Words(s[1..])
    else [s[..WordLen(s)]] + Words(s[WordLen(s)..])
  }

  predicate Word(w: string) {
    w != "" && ' ' !in w
  }

  lemma {:induction false} WordsAreWords(s: string)
    ensures forall w :: w in Words(s) ==> Word(w)
    decreases |s|
  {
    if s != "" {
      WordsAreWords(if s[0] == ' ' then s[1..] else s[WordLen(s)..]);
    }
  }

  lemma WordLenOfWord(w: string, rest: string)
    requires ' ' !in w && (rest == "" || rest[0] == ' ')
    ensures WordLen(w + rest) == |w|
  {
    var n := WordLen(w + rest);
    forall k | 0 <= k < n
      ensures (w + rest)[k] != ' '
    {
      assert (w + rest)[..n][k] == (w + rest)[k];
    }
    forall k | 0 <= k < |w|
      ensures (w + rest)[k] != ' '
    {
      assert (w + rest)[k] == w[k] && w[k] in w;
    }
    if rest != "" {
      assert (w + rest)[|w|] == ' ';
    }
  }

  lemma WordsOfWord(w: string, rest: string)
    requires Word(w) && (rest == "" || rest[0] == ' ')
    ensures Words(w + rest) == [w] + Words(rest)
  {
    WordLenOfWord(w, rest);
    assert w[0] in w;
    assert (w + rest)[..|w|] == w && (w + rest)[|w|..] == rest;
  }

  /** Appending a separated word to a list appends that word to its words. */
  lemma {:induction false} WordsSnoc(s: string, w: string)
    requires Word(w)
    ensures Words(s + " " + w) == Words(s) + [w]
    decreases |s|
  {
    var t := " " + w;
    assert s + " " + w == s + t;
    if s == "" {
      assert s + t == t && t[0] == ' ' && t[1..] == w;
      WordsOfWord(w, "");
      assert w + "" == w;
    } else if s[0] == ' ' {
      assert (s + t)[0] == ' ' && (s + t)[1..] == s[1..] + " " + w;
      WordsSnoc(s[1..], w);
    } else {
      var n := WordLen(s);
      assert s[..n] + (s[n..] + t) == s + t;
      assert s[n..] + t == s[n..] + " " + w;
      WordsOfWord(s[..n], s[n..] + t);
      WordsSnoc(s[n..], w);
    }
  }

  // ----- str_contains_token -----

  /** `token` stands at offset `i`, with a space or an end of the string on both sides. */
  predicate StandsAt(s: string, token: string, i: nat) {
    && OccursAt(s, token, i)
    && (i == 0 || s[i - 1] == ' ')
    && (i + |token| == |s| || s[i + |token|] == ' ')
  }

  /** strstr(hay + i, needle), as an offset into hay */
  method FindFrom(hay: string, needle: string, i: nat) returns (r: Option<nat>)
    requires i <= |hay|
    ensures r.Some? ==> i <= r.value <= |hay| && OccursAt(hay, needle, r.value)
    ensures forall k: nat :: i <= k <= (if r.Some? then r.value - 1 else |hay|) ==> !OccursAt(hay, needle, k)
  {
    var k := i;
    while k <= |hay|
      invariant i <= k <= |hay| + 1
      invariant forall m: nat :: i <= m < k ==> !OccursAt(hay, needle, m)
    {
      if k + |needle| <= |hay| && hay[k..k + |needle|] == needle {
        return Some(k);
      }
      k := k + 1;
    }
    return None;
  }

  /** str_contains_token */
  method StrContainsToken(s: string, token: string) returns (found: bool)
    ensures found <==> token != "" && s != "" && exists i: nat :: StandsAt(s, token, i)
  {
    if token == "" || s == "" {
      return false;
    }
    var at := FindFrom(s, token, 0);
    while at.Some? && at.value < |s|
      invariant at.Some? ==> at.value <= |s| && OccursAt(s, token, at.value)
      invariant forall i: nat :: i < (if at.Some? then at.value else |s|) ==> !StandsAt(s, token, i)
      decreases if at.Some? then |s| - at.value + 1 else 0
    {
      var offset := at.value;
      if offset == 0 || s[offset - 1] == ' ' {
        if offset + |token| == |s| || s[offset + |token|] == ' ' {
          assert StandsAt(s, token, offset);
          return true;
        }
      }
      at := FindFrom(s, token, offset + 1);
    }
    return false;
  }

  /** The search decides membership in the word list for every token that is a single word. */
  lemma {:induction false} StandsIffListed(s: string, token: string)
    requires Word(token)
    ensures (exists i: nat :: StandsAt(s, token, i)) <==> token in Words(s)
    decreases |s|
  {
    if s == "" {
    } else {
      var n := if s[0] == ' ' then 1 else WordLen(s);
      StandsIffListed(s[n..], token);
      if i: nat :| StandsAt(s, token, i) {
        if i == 0 {
          assert s == token + s[|token|..];
          assert s[0] == token[0] && token[0] in token;
          WordLenOfWord(token, s[|token|..]);
        } else {
          StandsBehind(s, token, n, i);
        }
      }
      if token in Words(s) {
        if s[0] != ' ' && token == s[..n] {
          assert StandsAt(s, token, 0);
        } else {
          var j: nat :| StandsAt(s[n..], token, j);
          StandsAhead(s, token, n, j);
        }
      }
    }
  }

  lemma StandsAhead(s: string, token: string, n: nat, j: nat)
    requires Word(token) && 0 < n <= |s| && StandsAt(s[n..], token, j)
    requires n == |s| || s[n - 1] == ' ' || s[n] == ' '
    ensures StandsAt(s, token, j + n)
  {
    SliceBehind(s, n, j, |token|);
    assert s[n + j] == s[n..][j..j + |token|][0] == token[0];
    assert token[0] in token;
  }

  lemma StandsBehind(s: string, token: string, n: nat, i: nat)
    requires Word(token) && StandsAt(s, token, i) && 0 < n <= |s|
    requires (n == 1 && s[0] == ' ') || (i > 0 && ' ' !in s[..n])
    ensures i >= n && StandsAt(s[n..], token, i - n)
  {
    assert s[i] == s[i..i + |token|][0] == token[0];
    assert token[0] in token;
    NotBefore(s, token, n, i);
    SliceBehind(s, n, i - n, |token|);
  }

  lemma NotBefore(s: string, token: string, n: nat, i: nat)
    requires Word(token) && StandsAt(s, token, i) && 0 < n <= |s| && s[i] != ' '
    requires (n == 1 && s[0] == ' ') || (i > 0 && ' ' !in s[..n])
    ensures i >= n
  {
    if ' ' !in s[..n] {
      NoneBefore(s, n);
    }
  }

  lemma NoneBefore(s: string, n: nat)
    requires n <= |s| && ' ' !in s[..n]
    ensures forall k :: 0 <= k < n ==> s[k] != ' '
  {
    forall k | 0 <= k < n
      ensures s[k] != ' '
    {
      assert s[..n][k] == s[k] && s[..n][k] in s[..n];
    }
  }

  // ----- str_add_unique_token -----

  function Separator(tgt: string): string {
    if |tgt| > 0 then " " else ""
  }

  /** Adding one word: 0 if it is listed, -1 if it does not fit, 1 if it was added. */
  function AddWord(tgt: string, size: nat, w: string): Appended
    requires size > 0
  {
    if w in Words(tgt) then Appended(tgt, 0)
    else if size < |tgt| + |Separator(tgt)| + |w| + 1 then Appended(tgt, -1)
    else
      var r := AppendText(tgt, size, Separator(tgt) + w);
      Appended(r.text, if r.ret < 0 then -1 else 1)
  }

  /** What the two callbacks say of the list, its size and a word; a missing one objects to nothing. */
  datatype Callbacks = Callbacks(always: (string, nat, string) -> bool, unique: (string, nat, string) -> bool)

  /** The same with callbacks: -3 when one of them objects. */
  function OfferWord(cb: Callbacks, tgt: string, size: nat, w: string): Appended
    requires size > 0
  {
    if !cb.always(tgt, size, w) then Appended(tgt, -3)
    else if w !in Words(tgt) && !cb.unique(tgt, size, w) then Appended(tgt, -3)
    else AddWord(tgt, size, w)
  }

  /** How the results for the words of one argument combine. */
  function Combine(retval: int, ret: int): int {
    if retval == -2 || ret < 0 || (retval >= 0 && ret >= retval) then ret else retval
  }

  function AddWords(before: Appended, size: nat, ws: seq<string>): Appended
    requires size > 0
    decreases |ws|
  {
    if ws == [] then before
    else
      var r := AddWord(before.text, size, ws[0]);
      AddWords(Appended(r.text, Combine(before.ret, r.ret)), size, ws[1..])
  }

  function OfferWords(cb: Callbacks, before: Appended, size: nat, ws: seq<string>): Appended
    requires size > 0
    decreases |ws|
  {
    if ws == [] then before
    else
      var r := OfferWord(cb, before.text, size, ws[0]);
      OfferWords(cb, Appended(r.text, Combine(before.ret, r.ret)), size, ws[1..])
  }

  lemma {:induction false} OfferWordsSnoc(cb: Callbacks, before: Appended, size: nat, ws: seq<string>, w: string)
    requires size > 0
    ensures var b := OfferWords(cb, before, size, ws);
            var r := OfferWord(cb, b.text, size, w);
            OfferWords(cb, before, size, ws + [w]) == Appended(r.text, Combine(b.ret, r.ret))
    decreases |ws|
  {
    if ws == [] {
      assert ([w])[1..] == [] && [] + [w] == [w];
    } else {
      assert (ws + [w])[0] == ws[0] && (ws + [w])[1..] == ws[1..] + [w];
      var r := OfferWord(cb, before.text, size, ws[0]);
      OfferWordsSnoc(cb, Appended(r.text, Combine(before.ret, r.ret)), size, ws[1..], w);
    }
  }

  /** Callbacks that object to none of the words leave everything as it is without them. */
  lemma {:induction false} NoObjection(cb: Callbacks, before: Appended, size: nat, ws: seq<string>)
    requires size > 0
    requires forall t: string, w: string :: w in ws ==> cb.always(t, size, w) && cb.unique(t, size, w)
    ensures OfferWords(cb, before, size, ws) == AddWords(before, size, ws)
    decreases |ws|
  {
    if ws != [] {
      assert ws[0] in ws;
      var r := AddWord(before.text, size, ws[0]);
      NoObjection(cb, Appended(r.text, Combine(before.ret, r.ret)), size, ws[1..]);
    }
  }

  /** A word objected to changes nothing, and its code sticks unless a later failure replaces it. */
  lemma {:induction false} ObjectionSticks(cb: Callbacks, before: Appended, size: nat, ws: seq<string>)
    requires size > 0 && before.ret in {-1, -3}
    ensures OfferWords(cb, before, size, ws).ret in {-1, -3}
    decreases |ws|
  {
    if ws != [] {
      var r := OfferWord(cb, before.text, size, ws[0]);
      ObjectionSticks(cb, Appended(r.text, Combine(before.ret, r.ret)), size, ws[1..]);
    }
  }

  /** str_add_unique_token for a single word (the part below the recursion) */
  method AddSingle(cb: Callbacks, tgt: array<char>, size: nat, token: string) returns (ret: int)
    requires 0 < size <= tgt.Length && Terminated(tgt) && Word(token) && NUL !in token
    modifies tgt
    ensures Terminated(tgt) && tgt[size..] == old(tgt[size..])
    ensures Appended(CString(tgt[..]), ret) == OfferWord(cb, old(CString(tgt[..])), size, token)
  {
    var have := CString(tgt[..]);
    if !cb.always(have, size, token) {
      return -3;
    }
    StandsIffListed(have, token);
    var found := StrContainsToken(have, token);
    if found {
      return 0;
    }
    if !cb.unique(have, size, token) {
      return -3;
    }
    var tgtlen := |have|;
    if size < tgtlen + (if tgtlen > 0 then 1 else 0) + |token| + 1 {
      return -1;
    }
    var r := AppendFormatted(tgt, size, (if tgtlen > 0 then " " else "") + token);
    return if r < 0 then -1 else 1;
  }

  /** One step of the recursion over the words of an argument */
  method AddPiece(cb: Callbacks, tgt: array<char>, size: nat, piece: string, retval: int,
                  ghost before: Appended, ghost done: seq<string>)
    returns (r: int)
    requires 0 < size <= tgt.Length && Terminated(tgt) && Word(piece) && NUL !in piece
    requires Appended(CString(tgt[..]), retval) == OfferWords(cb, before, size, done)
    modifies tgt
    ensures Terminated(tgt) && tgt[size..] == old(tgt[size..])
    ensures Appended(CString(tgt[..]), r) == OfferWords(cb, before, size, done + [piece])
  {
    var ret := AddSingle(cb, tgt, size, piece);
    OfferWordsSnoc(cb, before, size, done, piece);
    return Combine(retval, ret);
  }

  /** str_add_unique_token */
  method StrAddUniqueToken(tgt: array?<char>, size: nat, token: Option<string>, cb: Callbacks) returns (retval: int)
    requires tgt != null ==> 0 < size <= tgt.Length && Terminated(tgt)
    requires token.Some? ==> NUL !in token.value
    modifies tgt
    ensures tgt != null ==> Terminated(tgt) && tgt[size..] == old(tgt[size..])
    ensures tgt == null || token.None? ==> retval == -2
    ensures tgt != null && token.None? ==> tgt[..] == old(tgt[..])
    ensures tgt != null && token.Some? ==>
              Appended(CString(tgt[..]), retval) == OfferWords(cb, Appended(old(CString(tgt[..])), -2), size, Words(token.value))
  {
    if tgt == null || token.None? || token.value == "" {
      return -2;
    }
    retval := AddTokens(cb, tgt, size, token.value);
  }

  /** The same for an argument that is not empty */
  method AddTokens(cb: Callbacks, tgt: array<char>, size: nat, token: string) returns (retval: int)
    requires 0 < size <= tgt.Length && Terminated(tgt) && NUL !in token && token != ""
    modifies tgt
    ensures Terminated(tgt) && tgt[size..] == old(tgt[size..])
    ensures Appended(CString(tgt[..]), retval) == OfferWords(cb, Appended(old(CString(tgt[..])), -2), size, Words(token))
  {
    var spaced := FindFrom(token, " ", 0);
    if spaced.None? {
      NoSpace(token);
      retval := AddSingle(cb, tgt, size, token);
      WordsOfWord(token, "");
      assert token + "" == token;
      return;
    }
    retval := AddSpaced(cb, tgt, size, token);
  }

  /** A space in the argument ends the piece before it, if there is one. */
  method AddUpTo(cb: Callbacks, tgt: array<char>, size: nat, token: string, s: nat, p: nat, retval: int, ghost before: Appended)
    returns (r: int)
    requires 0 < size <= tgt.Length && Terminated(tgt) && NUL !in token
    requires p < |token| && token[p] == ' ' && Walked(token, s, p)
    requires Appended(CString(tgt[..]), retval) == OfferWords(cb, before, size, Words(token[..s]))
    modifies tgt
    ensures Terminated(tgt) && tgt[size..] == old(tgt[size..])
    ensures Appended(CString(tgt[..]), r) == OfferWords(cb, before, size, Words(token[..p + 1]))
  {
    r := retval;
    if s != p {
      r := AddPiece(cb, tgt, size, token[s..p], retval, before, Words(token[..s]));
    }
    WordsUpTo(token, s, p);
  }

  /** The piece from s on has been walked up to p. */
  predicate Walked(token: string, s: nat, p: nat) {
    s <= p <= |token| && ' ' !in token[s..p] && (s == 0 || token[s - 1] == ' ')
  }

  lemma PieceGrows(token: string, s: nat, p: nat)
    requires p < |token| && Walked(token, s, p)
    ensures token[p] != ' ' ==> Walked(token, s, p + 1)
    ensures token[p] == ' ' ==> Walked(token, p + 1, p + 1)
  {
    assert token[s..p + 1] == token[s..p] + [token[p]];
  }

  /** The loop over an argument that holds spaces */
  method AddSpaced(cb: Callbacks, tgt: array<char>, size: nat, token: string) returns (retval: int)
    requires 0 < size <= tgt.Length && Terminated(tgt) && NUL !in token
    modifies tgt
    ensures Terminated(tgt) && tgt[size..] == old(tgt[size..])
    ensures Appended(CString(tgt[..]), retval) == OfferWords(cb, Appended(old(CString(tgt[..])), -2), size, Words(token))
  {
    retval := -2;
    ghost var before := Appended(CString(tgt[..]), -2);
    var s, p := 0, 0;
    while p < |token|
      invariant Walked(token, s, p)
      invariant Terminated(tgt) && tgt[size..] == old(tgt[size..])
      invariant Appended(CString(tgt[..]), retval) == OfferWords(cb, before, size, Words(token[..s]))
    {
      PieceGrows(token, s, p);
      if token[p] == ' ' {
        retval := AddUpTo(cb, tgt, size, token, s, p, retval, before);
        p := p + 1;
        s := p;
      } else {
        p := p + 1;
      }
    }
    retval := AddLast(cb, tgt, size, token, s, retval, before);
  }

  /** The last piece, if the argument does not end in a space */
  method AddLast(cb: Callbacks, tgt: array<char>, size: nat, token: string, s: nat, retval: int, ghost before: Appended)
    returns (r: int)
    requires 0 < size <= tgt.Length && Terminated(tgt) && NUL !in token && Walked(token, s, |token|)
    requires Appended(CString(tgt[..]), retval) == OfferWords(cb, before, size, Words(token[..s]))
    modifies tgt
    ensures Terminated(tgt) && tgt[size..] == old(tgt[size..])
    ensures Appended(CString(tgt[..]), r) == OfferWords(cb, before, size, Words(token))
  {
    r := retval;
    assert token[s..|token|] == token[s..];
    WordsToEnd(token, s);
    if s != |token| {
      r := AddPiece(cb, tgt, size, token[s..], retval, before, Words(token[..s]));
    }
  }

  lemma NoSpace(token: string)
    requires forall k: nat :: k <= |token| ==> !OccursAt(token, " ", k)
    ensures ' ' !in token
  {
    if ' ' in token {
      var k :| 0 <= k < |token| && token[k] == ' ';
      assert token[k..k + 1] == " ";
      assert OccursAt(token, " ", k);
    }
  }

  lemma {:induction false} WordsTrailingSpace(s: string)
    ensures Words(s + " ") == Words(s)
    decreases |s|
  {
    if s == "" {
      assert s + " " == " " && " "[1..] == "";
    } else if s[0] == ' ' {
      assert (s + " ")[1..] == s[1..] + " ";
      WordsTrailingSpace(s[1..]);
    } else {
      var n := WordLen(s);
      assert s + " " == s[..n] + (s[n..] + " ");
      WordsOfWord(s[..n], s[n..] + " ");
      WordsTrailingSpace(s[n..]);
    }
  }

  /** A list that ends at a separator continues with its next word. */
  lemma {:induction false} WordsThen(s: string, w: string)
    requires Word(w) && (s == "" || s[|s| - 1] == ' ')
    ensures Words(s + w) == Words(s) + [w]
  {
    if s == "" {
      assert s + w == w + "";
      WordsOfWord(w, "");
    } else {
      var t := s[..|s| - 1];
      assert s == t + " " && s + w == t + " " + w;
      WordsSnoc(t, w);
      WordsTrailingSpace(t);
    }
  }

  lemma WordsUpTo(token: string, s: nat, p: nat)
    requires s <= p < |token| && ' ' !in token[s..p] && token[p] == ' '
    requires s == 0 || token[s - 1] == ' '
    ensures Words(token[..p + 1]) == if s == p then Words(token[..s]) else Words(token[..s]) + [token[s..p]]
  {
    assert token[..p + 1] == token[..p] + " ";
    WordsTrailingSpace(token[..p]);
    if s != p {
      assert token[..p] == token[..s] + token[s..p];
      WordsThen(token[..s], token[s..p]);
    }
  }

  lemma WordsToEnd(token: string, s: nat)
    requires s <= |token| && ' ' !in token[s..] && (s == 0 || token[s - 1] == ' ')
    ensures Words(token) == if s == |token| then Words(token[..s]) else Words(token[..s]) + [token[s..]]
  {
    if s == |token| {
      assert token[..s] == token;
    } else {
      var before, last := token[..s], token[s..];
      assert before + last == token;
      assert s > 0 ==> before[|before| - 1] == ' ';
      WordsThen(before, last);
    }
  }
}
