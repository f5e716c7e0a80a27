// What adding tokens to a space-separated list means (str_add_unique_token of common/common.c): the
// words that come to stand in it, and what the return code says of them.
module TokenLists {
  import opened Text
  import opened Tokens

  /** The words of `ws` that are not in `have`, in the order first seen, without repeats. */
  function Unseen(have: seq<string>, ws: seq<string>): seq<string>
    decreases |ws|
  {
    if ws == [] then []
    else if ws[0] in have then Unseen(have, ws[1..])
    else [ws[0]] + Unseen(have + [ws[0]], ws[1..])
  }

  lemma {:induction false} UnseenSnoc(have: seq<string>, ws: seq<string>, w: string)
    ensures Unseen(have, ws + [w]) ==
            Unseen(have, ws) + if w in have || w in Unseen(have, ws) then [] else [w]
    decreases |ws|
  {
    if ws == [] {
      assert ws + [w] == [w] && [w][1..] == [];
    } else {
      assert (ws + [w])[0] == ws[0] && (ws + [w])[1..] == ws[1..] + [w];
      if ws[0] in have {
        UnseenSnoc(have, ws[1..], w);
      } else {
        UnseenSnoc(have + [ws[0]], ws[1..], w);
      }
    }
  }

  /** The list text with words appended to it. */
  function Extended(tgt: string, ws: seq<string>): string
    decreases |ws|
  {
    if ws == [] then tgt else Extended(tgt + Separator(tgt) + ws[0], ws[1..])
  }

  /** The list text with the new words among `ws` appended to it. */
  function WithNew(tgt: string, ws: seq<string>): string {
    Extended(tgt, Unseen(Words(tgt), ws))
  }

  /** At least one byte to spare behind the terminator. */
  predicate Fits(text: string, size: nat) {
    |text| + 2 <= size && |text| < INT_MAX
  }

  lemma {:induction false} ExtendedGrows(tgt: string, ws: seq<string>)
    ensures |tgt| <= |Extended(tgt, ws)|
    decreases |ws|
  {
    if ws != [] {
      ExtendedGrows(tgt + Separator(tgt) + ws[0], ws[1..]);
    }
  }

  lemma WordsExtendedByOne(tgt: string, w: string)
    requires Word(w)
    ensures Words(tgt + Separator(tgt) + w) == Words(tgt) + [w]
  {
    if tgt == "" {
      assert tgt + "" + w == w + "";
      WordsOfWord(w, "");
    } else {
      WordsSnoc(tgt, w);
    }
  }

  lemma AddWordFits(tgt: string, size: nat, w: string)
    requires size > 0 && w != "" && w !in Words(tgt) && Fits(tgt + Separator(tgt) + w, size)
    ensures AddWord(tgt, size, w) == Appended(tgt + Separator(tgt) + w, 1)
  {
    var text := Separator(tgt) + w;
    Assoc(tgt, Separator(tgt), w);
    AppendKeepsAllIffSpare(tgt, size, text);
  }

  /** The result code after adding `ws` of which `added` were new. */
  function ResultCode(ret: int, ws: seq<string>, added: seq<string>): int {
    if ws == [] then ret
    else if added != [] && ret < 1 then 1
    else if ret == -2 then 0
    else ret
  }

  lemma AddNewWord(tgt: string, size: nat, ws: seq<string>)
    requires size > 0 && ws != [] && Word(ws[0]) && ws[0] !in Words(tgt)
    requires Fits(Extended(tgt, Unseen(Words(tgt), ws)), size)
    ensures AddWord(tgt, size, ws[0]) == Appended(tgt + Separator(tgt) + ws[0], 1)
    ensures var text := AddWord(tgt, size, ws[0]).text;
            && Words(text) == Words(tgt) + [ws[0]]
            && Fits(Extended(text, Unseen(Words(text), ws[1..])), size)
  {
    var w := ws[0];
    var longer := tgt + Separator(tgt) + w;
    var more := Unseen(Words(tgt) + [w], ws[1..]);
    assert Unseen(Words(tgt), ws) == [w] + more;
    assert ([w] + more)[1..] == more;
    ExtendedGrows(longer, more);
    AddWordFits(tgt, size, w);
    WordsExtendedByOne(tgt, w);
  }

  lemma CodeStep(ret: int, ws: seq<string>, first: int, more: seq<string>, added: seq<string>)
    requires ws != [] && ret in {-2, 0, 1} && first in {0, 1}
    requires ws[1..] == [] ==> more == []
    requires if first == 1 then added != [] else added == more
    ensures Combine(ret, first) in {-2, 0, 1}
    ensures ResultCode(Combine(ret, first), ws[1..], more) == ResultCode(ret, ws, added)
  {
  }

  predicate AllWords(ws: seq<string>) {
    forall i :: 0 <= i < |ws| ==> Word(ws[i])
  }

  /** The new words among `ws` leave a byte to spare, or there are none. */
  predicate HasRoom(tgt: string, size: nat, ws: seq<string>) {
    Unseen(Words(tgt), ws) == [] || Fits(WithNew(tgt, ws), size)
  }

  lemma {:induction false} AddWordsExact(before: Appended, size: nat, ws: seq<string>)
    requires size > 0 && before.ret in {-2, 0, 1} && AllWords(ws) && HasRoom(before.text, size, ws)
    ensures AddWords(before, size, ws) ==
            Appended(WithNew(before.text, ws), ResultCode(before.ret, ws, Unseen(Words(before.text), ws)))
    decreases |ws|
  {
    if ws != [] {
      var have, w := Words(before.text), ws[0];
      var r := AddWord(before.text, size, w);
      if w !in have {
        AddNewWord(before.text, size, ws);
      }
      CodeStep(before.ret, ws, r.ret, Unseen(Words(r.text), ws[1..]), Unseen(have, ws));
      AddWordsExact(Appended(r.text, Combine(before.ret, r.ret)), size, ws[1..]);
    }
  }

  // ----- lists with new words appended -----

  lemma {:induction false} ExtendedWords(tgt: string, ws: seq<string>)
    requires AllWords(ws)
    ensures Words(Extended(tgt, ws)) == Words(tgt) + ws
    decreases |ws|
  {
    if ws == [] {
      assert Words(tgt) + [] == Words(tgt);
    } else {
      WordsExtendedByOne(tgt, ws[0]);
      ExtendedWords(tgt + Separator(tgt) + ws[0], ws[1..]);
      assert [ws[0]] + ws[1..] == ws;
      Assoc(Words(tgt), [ws[0]], ws[1..]);
    }
  }

  lemma UnseenAreWords(have: seq<string>, ws: seq<string>)
    requires AllWords(ws)
    ensures AllWords(Unseen(have, ws))
  {
    UnseenMeaning(have, ws);
    forall i | 0 <= i < |Unseen(have, ws)|
      ensures Word(Unseen(have, ws)[i])
    {
      assert Unseen(have, ws)[i] in ws;
    }
  }

  lemma WithNewWords(tgt: string, ws: seq<string>)
    requires AllWords(ws)
    ensures Words(WithNew(tgt, ws)) == Words(tgt) + Unseen(Words(tgt), ws)
  {
    UnseenAreWords(Words(tgt), ws);
    ExtendedWords(tgt, Unseen(Words(tgt), ws));
  }

  lemma {:induction false} ExtendedSnoc(tgt: string, ws: seq<string>, w: string)
    ensures var t := Extended(tgt, ws); Extended(tgt, ws + [w]) == t + Separator(t) + w
    decreases |ws|
  {
    if ws == [] {
      assert ws + [w] == [w] && [w][1..] == [];
    } else {
      assert (ws + [w])[0] == ws[0] && (ws + [w])[1..] == ws[1..] + [w];
      ExtendedSnoc(tgt + Separator(tgt) + ws[0], ws[1..], w);
    }
  }

  lemma WithNewSnoc(tgt: string, ws: seq<string>, w: string)
    requires AllWords(ws)
    ensures var t := WithNew(tgt, ws);
            if w in Words(t) then Unseen(Words(tgt), ws + [w]) == Unseen(Words(tgt), ws) && WithNew(tgt, ws + [w]) == t
            else Unseen(Words(tgt), ws + [w]) == Unseen(Words(tgt), ws) + [w] && WithNew(tgt, ws + [w]) == t + Separator(t) + w
  {
    var have := Words(tgt);
    var added := Unseen(have, ws);
    WithNewWords(tgt, ws);
    UnseenSnoc(have, ws, w);
    if w !in Words(WithNew(tgt, ws)) {
      ExtendedSnoc(tgt, added, w);
    } else {
      assert added + [] == added;
    }
  }

  // ----- how long a list is -----

  /** The bytes the words take with a separator each. */
  function Length(ws: seq<string>): nat {
    if ws == [] then 0 else 1 + |ws[0]| + Length(ws[1..])
  }

  lemma {:induction false} WordsLength(s: string)
    ensures Length(Words(s)) <= |s| + 1
    decreases |s|
  {
    if s != "" {
      if s[0] == ' ' {
        WordsLength(s[1..]);
      } else {
        var n := WordLen(s);
        WordsLength(s[n..]);
        assert Words(s)[1..] == Words(s[n..]);
        if n < |s| {
          WordsLength(s[n..][1..]);
        }
      }
    }
  }

  /** Text that begins with a space adds its own words. */
  lemma {:induction false} WordsBehind(a: string, b: string)
    requires b != "" && b[0] == ' '
    ensures Words(a + b) == Words(a) + Words(b)
    decreases |a|
  {
    if a == "" {
      assert a + b == b && [] + Words(b) == Words(b);
    } else if a[0] == ' ' {
      assert (a + b)[0] == ' ' && (a + b)[1..] == a[1..] + b;
      WordsBehind(a[1..], b);
    } else {
      var n := WordLen(a);
      assert a + b == a[..n] + (a[n..] + b);
      WordsOfWord(a[..n], a[n..] + b);
      WordsBehind(a[n..], b);
      Assoc([a[..n]], Words(a[n..]), Words(b));
    }
  }

  lemma {:induction false} ExtendedLength(tgt: string, ws: seq<string>)
    requires tgt != "" || ws == [] || ws[0] != ""
    ensures |Extended(tgt, ws)| == |tgt| + Length(ws) - if tgt == "" && ws != [] then 1 else 0
    decreases |ws|
  {
    if ws != [] {
      ExtendedLength(tgt + Separator(tgt) + ws[0], ws[1..]);
    }
  }

  // ----- lists that run full -----

  /** The text grew only behind a space, and only as long as a byte stayed to spare. */
  predicate Grown(tgt: string, size: nat, text: string) {
    || text == tgt
    || (tgt <= text && |tgt| < |text| && (tgt == "" || text[|tgt|] == ' ') && |text| + 2 <= size)
  }

  lemma AddWordGrows(tgt: string, size: nat, text: string, w: string)
    requires 0 < size && Grown(tgt, size, text)
    ensures Grown(tgt, size, AddWord(text, size, w).text)
  {
    var more := Separator(text) + w;
    if w !in Words(text) && |text| + |more| + 1 <= size && more != "" {
      AppendKeepsAllIffSpare(text, size, more);
    }
  }

  lemma {:induction false} AddWordsGrow(tgt: string, size: nat, before: Appended, ws: seq<string>)
    requires 0 < size && Grown(tgt, size, before.text)
    ensures Grown(tgt, size, AddWords(before, size, ws).text)
    decreases |ws|
  {
    if ws != [] {
      var r := AddWord(before.text, size, ws[0]);
      AddWordGrows(tgt, size, before.text, ws[0]);
      AddWordsGrow(tgt, size, Appended(r.text, Combine(before.ret, r.ret)), ws[1..]);
    }
  }

  /** No text grown in this way holds more new words than fit. */
  lemma GrownWordsFit(tgt: string, size: nat, text: string, added: seq<string>)
    requires 0 < size <= INT_MAX && Grown(tgt, size, text) && added != [] && added[0] != ""
    requires Words(text) == Words(tgt) + added
    ensures Fits(Extended(tgt, added), size)
  {
    ExtendedLength(tgt, added);
    if tgt == "" {
      assert [] + added == added;
      WordsLength(text);
    } else if text != tgt {
      var tail := text[|tgt|..];
      assert text == tgt + tail;
      WordsBehind(tgt, tail);
      SameTail(Words(tgt), Words(tail), added);
      WordsLength(tail[1..]);
    }
  }

  lemma SameTail<T>(a: seq<T>, b: seq<T>, c: seq<T>)
    requires a + b == a + c
    ensures b == c
  {
    assert (a + b)[|a|..] == b && (a + c)[|a|..] == c;
  }

  /** The new words come to stand in the list exactly when there are none or all of them leave a
      byte to spare. */
  lemma WordsAddedIffRoom(tgt: string, size: nat, ws: seq<string>)
    requires 0 < size <= INT_MAX && AllWords(ws)
    ensures Words(AddWords(Appended(tgt, -2), size, ws).text) == Words(tgt) + Unseen(Words(tgt), ws) <==> HasRoom(tgt, size, ws)
  {
    var added := Unseen(Words(tgt), ws);
    var after := AddWords(Appended(tgt, -2), size, ws);
    if HasRoom(tgt, size, ws) {
      AddWordsExact(Appended(tgt, -2), size, ws);
      WithNewWords(tgt, ws);
    } else if Words(after.text) == Words(tgt) + added {
      UnseenAreWords(Words(tgt), ws);
      assert Word(added[0]);
      AddWordsGrow(tgt, size, Appended(tgt, -2), ws);
      GrownWordsFit(tgt, size, after.text, added);
    }
  }

  // ----- the return code of a list that runs full -----

  /** What the appender makes of an exact fit: the last character is dropped. */
  function CutFit(t: string, w: string): string
    requires w != ""
  {
    t + Separator(t) + w[..|w| - 1]
  }

  /** The test before the appender: whether a word not in the list is let through. */
  predicate Passes(t: string, size: nat, w: string) {
    w in Words(t) || |t| + |Separator(t)| + |w| + 1 <= size
  }

  /** Word k is the first new one without a byte to spare, but it fits exactly, and those behind it
      are in the list that its cut form leaves or pass the test of the size. */
  predicate CutAt(tgt: string, size: nat, ws: seq<string>, k: nat)
    requires AllWords(ws)
  {
    && k < |ws|
    && var t := WithNew(tgt, ws[..k]);
       && ws[k] !in Words(t) && |t| + |Separator(t)| + |ws[k]| + 1 == size
       && assert Word(ws[k]); forall j :: k < j < |ws| ==> Passes(CutFit(t, ws[k]), size, ws[j])
  }

  predicate CutUnnoticed(tgt: string, size: nat, ws: seq<string>)
    requires AllWords(ws)
  {
    exists k: nat | k < |ws| :: CutAt(tgt, size, ws, k)
  }

  lemma {:induction false} AddWordsInTurn(before: Appended, size: nat, a: seq<string>, b: seq<string>)
    requires size > 0
    ensures AddWords(before, size, a + b) == AddWords(AddWords(before, size, a), size, b)
    decreases |a|
  {
    if a == [] {
      assert a + b == b;
    } else {
      assert (a + b)[0] == a[0] && (a + b)[1..] == a[1..] + b;
      var r := AddWord(before.text, size, a[0]);
      AddWordsInTurn(Appended(r.text, Combine(before.ret, r.ret)), size, a[1..], b);
    }
  }

  lemma {:induction false} FailureSticks(text: string, size: nat, ws: seq<string>)
    requires size > 0
    ensures AddWords(Appended(text, -1), size, ws).ret == -1
    decreases |ws|
  {
    if ws != [] {
      FailureSticks(AddWord(text, size, ws[0]).text, size, ws[1..]);
    }
  }

  /** A list with two bytes left takes no further word; only the code tells. */
  lemma FullTakesNothing(t: string, size: nat, w: string)
    requires 0 < size <= INT_MAX && |t| + 2 == size && w != ""
    ensures AddWord(t, size, w).text == t
    ensures AddWord(t, size, w).ret == if w in Words(t) then 0 else if Passes(t, size, w) then 1 else -1
  {
    assert t + "" == t;
  }

  lemma {:induction false} RestOfFull(t: string, size: nat, ws: seq<string>)
    requires 0 < size <= INT_MAX && |t| + 2 == size && AllWords(ws)
    ensures var passed := forall j :: 0 <= j < |ws| ==> Passes(t, size, ws[j]);
            AddWords(Appended(t, 1), size, ws).ret == (if passed then 1 else -1) &&
            (passed ==> AddWords(Appended(t, 1), size, ws).text == t)
    decreases |ws|
  {
    if ws != [] {
      assert Word(ws[0]);
      FullTakesNothing(t, size, ws[0]);
      if Passes(t, size, ws[0]) {
        RestOfFull(t, size, ws[1..]);
        assert forall j :: 0 < j < |ws| ==> ws[j] == ws[1..][j - 1];
        assert forall j :: 0 <= j < |ws[1..]| ==> ws[1..][j] == ws[j + 1];
      } else {
        FailureSticks(t, size, ws[1..]);
      }
    }
  }

  lemma {:induction false} FirstWithoutRoom(tgt: string, size: nat, ws: seq<string>) returns (k: nat)
    requires 0 < size <= INT_MAX && AllWords(ws) && !HasRoom(tgt, size, ws)
    ensures k < |ws| && HasRoom(tgt, size, ws[..k])
    ensures var t := WithNew(tgt, ws[..k]);
            ws[k] !in Words(t) && |t| + |Separator(t)| + |ws[k]| + 2 > size
    decreases |ws|
  {
    k := |ws| - 1;
    assert ws[..k] + [ws[k]] == ws;
    if HasRoom(tgt, size, ws[..k]) {
      WithNewSnoc(tgt, ws[..k], ws[k]);
    } else {
      var front := ws[..k];
      k := FirstWithoutRoom(tgt, size, front);
      assert front[..k] == ws[..k];
    }
  }

  /** The code when word k is the first new one without a byte to spare. */
  lemma CodeAtCut(tgt: string, size: nat, ws: seq<string>, k: nat)
    requires 0 < size <= INT_MAX && AllWords(ws) && k < |ws| && HasRoom(tgt, size, ws[..k])
    requires var t := WithNew(tgt, ws[..k]);
             ws[k] !in Words(t) && |t| + |Separator(t)| + |ws[k]| + 2 > size
    ensures AddWords(Appended(tgt, -2), size, ws).ret == if CutAt(tgt, size, ws, k) then 1 else -1
    ensures CutAt(tgt, size, ws, k) ==>
              assert Word(ws[k]);
              AddWords(Appended(tgt, -2), size, ws).text == CutFit(WithNew(tgt, ws[..k]), ws[k])
  {
    var t, w, rest := WithNew(tgt, ws[..k]), ws[k], ws[k + 1..];
    assert Word(w);
    assert ws == ws[..k] + ([w] + rest);
    AddWordsInTurn(Appended(tgt, -2), size, ws[..k], [w] + rest);
    AddWordsExact(Appended(tgt, -2), size, ws[..k]);
    assert ([w] + rest)[0] == w && ([w] + rest)[1..] == rest;
    if |t| + |Separator(t)| + |w| + 1 == size {
      ExactFitCut(t, size, w);
      RestOfFull(CutFit(t, w), size, rest);
      assert forall j :: k < j < |ws| ==> ws[j] == rest[j - k - 1];
      assert forall j :: 0 <= j < |rest| ==> rest[j] == ws[j + k + 1];
    } else {
      FailureSticks(t, size, rest);
    }
  }

  lemma ExactFitCut(t: string, size: nat, w: string)
    requires 0 < size <= INT_MAX && Word(w) && w !in Words(t) && |t| + |Separator(t)| + |w| + 1 == size
    ensures AddWord(t, size, w) == Appended(CutFit(t, w), 1) && |CutFit(t, w)| + 2 == size
  {
    var more := Separator(t) + w;
    assert Clip(more, |more| - 1) == Separator(t) + w[..|w| - 1];
    Assoc(t, Separator(t), w[..|w| - 1]);
  }

  /** A word cut at its first place is nowhere in the list, so this is where the list runs full. */
  lemma CutIsFirst(tgt: string, size: nat, ws: seq<string>, k: nat)
    requires 0 < size <= INT_MAX && AllWords(ws) && CutAt(tgt, size, ws, k)
    ensures HasRoom(tgt, size, ws[..k]) && !HasRoom(tgt, size, ws)
  {
    var t := WithNew(tgt, ws[..k]);
    assert Word(ws[k]);
    assert ws == ws[..k] + [ws[k]] + ws[k + 1..];
    WithNewSnoc(tgt, ws[..k], ws[k]);
    MoreNew(tgt, ws[..k] + [ws[k]], ws[k + 1..]);
  }

  /** Further words only make a list longer. */
  lemma {:induction false} MoreNew(tgt: string, a: seq<string>, b: seq<string>)
    requires AllWords(a) && AllWords(b)
    ensures |WithNew(tgt, a)| <= |WithNew(tgt, a + b)|
    ensures |Unseen(Words(tgt), a)| <= |Unseen(Words(tgt), a + b)|
    decreases |b|
  {
    if b == [] {
      assert a + b == a;
    } else {
      var front, last := b[..|b| - 1], b[|b| - 1];
      assert a + b == (a + front) + [last];
      MoreNew(tgt, a, front);
      WithNewSnoc(tgt, a + front, last);
    }
  }

  // ----- str_add_unique_token -----

  /** For every list and every argument: the list comes to hold its old words followed by the new
      words of the argument exactly when there are none or all of them leave a byte to spare. The
      result is then 1 if some word was added, 0 if all of one or more were listed already, -2 if the
      argument holds none. Without room it is -1, unless the first new word that lacks room fits
      exactly but for the spare byte and nothing behind it fails: then the cut word goes unnoticed. */
  lemma AddTokensExact(tgt: string, size: nat, token: string)
    requires 0 < size <= INT_MAX
    ensures AllWords(Words(token))
    ensures var ws := Words(token); var added := Unseen(Words(tgt), ws);
            var after := AddWords(Appended(tgt, -2), size, ws);
            && (Words(after.text) == Words(tgt) + added <==> added == [] || Fits(Extended(tgt, added), size))
            && after.ret ==
               if ws == [] then -2
               else if added == [] then 0
               else if Fits(Extended(tgt, added), size) || CutUnnoticed(tgt, size, ws) then 1
               else -1
  {
    var ws := Words(token);
    WordsAreWords(token);
    WordsAddedIffRoom(tgt, size, ws);
    if HasRoom(tgt, size, ws) {
      AddWordsExact(Appended(tgt, -2), size, ws);
    } else {
      var k := FirstWithoutRoom(tgt, size, ws);
      CodeAtCut(tgt, size, ws, k);
      if n: nat :| n < |ws| && CutAt(tgt, size, ws, n) {
        CutIsFirst(tgt, size, ws, n);
        CodeAtCut(tgt, size, ws, n);
      }
    }
  }

  /** Every word of the argument was new and was added. */
  predicate AllAdded(tgt: string, ws: seq<string>, after: string) {
    ws != [] && Words(after) == Words(tgt) + ws
  }

  lemma {:induction false} UnseenLength(have: seq<string>, ws: seq<string>)
    ensures Length(Unseen(have, ws)) <= Length(ws)
    decreases |ws|
  {
    if ws != [] {
      UnseenLength(if ws[0] in have then have else have + [ws[0]], ws[1..]);
    }
  }

  lemma NotAllAddedWithoutRoom(tgt: string, size: nat, ws: seq<string>)
    requires 0 < size <= INT_MAX && AllWords(ws) && !HasRoom(tgt, size, ws)
    ensures !AllAdded(tgt, ws, AddWords(Appended(tgt, -2), size, ws).text)
  {
    var after := AddWords(Appended(tgt, -2), size, ws);
    if AllAdded(tgt, ws, after.text) {
      var added := Unseen(Words(tgt), ws);
      assert Word(ws[0]);
      AddWordsGrow(tgt, size, Appended(tgt, -2), ws);
      GrownWordsFit(tgt, size, after.text, ws);
      UnseenAreWords(Words(tgt), ws);
      assert Word(added[0]);
      UnseenLength(Words(tgt), ws);
      ExtendedLength(tgt, ws);
      ExtendedLength(tgt, added);
    }
  }

  /** The comment before the return promises 1 when all tokens were successfully added. With room it
      is so exactly when all of them were new and different, or none was new; without, exactly when
      no cut goes unnoticed. */
  lemma OneMeansAllAdded(tgt: string, size: nat, token: string)
    requires 0 < size <= INT_MAX
    ensures AllWords(Words(token))
    ensures var ws := Words(token); var added := Unseen(Words(tgt), ws);
            var after := AddWords(Appended(tgt, -2), size, ws);
            (after.ret == 1 <==> AllAdded(tgt, ws, after.text)) <==>
              if added == [] || Fits(Extended(tgt, added), size) then added == [] || added == ws
              else !CutUnnoticed(tgt, size, ws)
  {
    var ws := Words(token);
    AddTokensExact(tgt, size, token);
    if HasRoom(tgt, size, ws) {
      var added := Unseen(Words(tgt), ws);
      if AllAdded(tgt, ws, AddWords(Appended(tgt, -2), size, ws).text) {
        SameTail(Words(tgt), added, ws);
      }
    } else {
      NotAllAddedWithoutRoom(tgt, size, ws);
    }
  }

  lemma CutNotListed(t: string, w: string)
    requires Word(w) && w !in Words(t)
    ensures w !in Words(CutFit(t, w))
  {
    var short := w[..|w| - 1];
    if short != "" {
      assert Word(short) by { assert forall i :: 0 <= i < |short| ==> short[i] == w[i]; }
      WordsExtendedByOne(t, short);
    } else if t != "" {
      assert t + " " + "" == t + " ";
      WordsTrailingSpace(t);
    }
  }

  /** Read generously, 1 promises that every word of the argument is in the list afterwards: so it is
      exactly when no cut goes unnoticed. */
  lemma OneMeansAllListed(tgt: string, size: nat, token: string)
    requires 0 < size <= INT_MAX
    ensures AllWords(Words(token))
    ensures var ws := Words(token);
            var after := AddWords(Appended(tgt, -2), size, ws);
            (after.ret == 1 ==> forall w :: w in ws ==> w in Words(after.text)) <==> !CutUnnoticed(tgt, size, ws)
  {
    var ws := Words(token);
    AddTokensExact(tgt, size, token);
    if k: nat :| k < |ws| && CutAt(tgt, size, ws, k) {
      CutIsFirst(tgt, size, ws, k);
      CodeAtCut(tgt, size, ws, k);
      CutNotListed(WithNew(tgt, ws[..k]), ws[k]);
      assert ws[k] in ws;
    } else if HasRoom(tgt, size, ws) {
      UnseenMeaning(Words(tgt), ws);
    }
  }

  /** Unseen really is what its comment says: the new words, each once, none lost. */
  lemma {:induction false} UnseenMeaning(have: seq<string>, ws: seq<string>)
    ensures var u := Unseen(have, ws);
            && (forall w :: w in u <==> w in ws && w !in have)
            && (forall i, j :: 0 <= i < j < |u| ==> u[i] != u[j])
    decreases |ws|
  {
    if ws != [] {
      if ws[0] in have {
        UnseenMeaning(have, ws[1..]);
      } else {
        var rest := Unseen(have + [ws[0]], ws[1..]);
        UnseenMeaning(have + [ws[0]], ws[1..]);
        assert ws[0] !in rest;
        assert forall j :: 0 <= j < |rest| ==> rest[j] in rest;
      }
      assert forall w :: w in ws <==> w == ws[0] || w in ws[1..];
    }
  }

  /** The size test of str_add_unique_token lets an exact fit through, but the appender then drops
      the last character and success is still reported: a new word really becomes the last word of
      the list exactly when one more byte than the test asks for is there. */
  lemma NewWordListedIffSpare(tgt: string, size: nat, w: string)
    requires Word(w) && w !in Words(tgt)
    requires |tgt| + |Separator(tgt)| + |w| + 1 <= size <= INT_MAX
    ensures AddWord(tgt, size, w).ret == 1
    ensures Words(AddWord(tgt, size, w).text) == Words(tgt) + [w] <==> |tgt| + |Separator(tgt)| + |w| + 1 < size
  {
    var text := Separator(tgt) + w;
    AppendKeepsAllIffSpare(tgt, size, text);
    assert tgt + text == tgt + Separator(tgt) + w;
    if |tgt| + |Separator(tgt)| + |w| + 1 < size {
      WordsExtendedByOne(tgt, w);
    } else {
      var short := w[..|w| - 1];
      assert AddWord(tgt, size, w).text == tgt + Separator(tgt) + short by {
        assert text[..|text| - 1] == Separator(tgt) + short;
      }
      if short == "" {
        if tgt != "" {
          WordsTrailingSpace(tgt);
          assert tgt + " " + "" == tgt + " ";
        }
      } else {
        assert forall i :: 0 <= i < |short| ==> short[i] == w[i];
        WordsExtendedByOne(tgt, short);
        assert (Words(tgt) + [short])[|Words(tgt)|] == short;
      }
    }
  }
}
