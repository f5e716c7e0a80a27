// Which flags a polled status leaves set (parse_status of clients/upsmon.c).
module UpsMonStatus {
  import opened Text
  import opened UpsMon

  /** The text is this word, in upper, lower or mixed case. */
  predicate Spells(s: string, w: Word) {
    SameIgnoringCase(s, Spelling(w))
  }

  /** Some word of a status is `w`. */
  predicate Says(ws: seq<string>, w: Word) {
    exists i :: 0 <= i < |ws| && Spells(ws[i], w)
  }

  lemma WordOfSpells(s: string)
    ensures Spells(s, WordOf(s)) || WordOf(s) == NoReaction
  {
  }

  lemma WordOfFinds(s: string, w: Word)
    requires w != NoReaction && Spells(s, w)
    ensures WordOf(s) != NoReaction
  {
  }

  lemma SpellingsDiffer(v: Word, w: Word)
    requires v != NoReaction && w != NoReaction && Spells(Spelling(v), w)
    ensures v == w
  {
    var a, b := Spelling(v), Spelling(w);
    assert Lower(a[0]) == Lower(b[0]) && Lower(a[1]) == Lower(b[1]);
  }

  /** No string spells two words. */
  lemma SpellingsApart(s: string, w: Word)
    requires w != NoReaction
    ensures WordOf(s) == w <==> Spells(s, w)
  {
    WordOfSpells(s);
    if Spells(s, w) {
      WordOfFinds(s, w);
      SpellingsDiffer(WordOf(s), w);
    }
  }

  lemma ApplyWordSets(u: Ups, cfg: Config, w: Word, news: bool, now: int, f: Flag)
    requires Reported(f)
    ensures f in ApplyWord(u, cfg, w, news, now).status <==> f in u.status || w == Name(f)
  {
    if w in {CAL, OFF, BYPASS, OVER, TRIM, BOOST} {
      ConditionWordSets(u, cfg, w, news, now, f);
    } else {
      OtherWordSets(u, cfg, w, news, now, f);
    }
  }

  lemma ConditionWordSets(u: Ups, cfg: Config, w: Word, news: bool, now: int, f: Flag)
    requires Reported(f) && w in {CAL, OFF, BYPASS, OVER, TRIM, BOOST}
    ensures f in ApplyWord(u, cfg, w, news, now).status <==> f in u.status || w == Name(f)
  {
  }

  lemma OtherWordSets(u: Ups, cfg: Config, w: Word, news: bool, now: int, f: Flag)
    requires Reported(f) && w !in {CAL, OFF, BYPASS, OVER, TRIM, BOOST}
    ensures f in ApplyWord(u, cfg, w, news, now).status <==> f in u.status || w == Name(f)
  {
  }

  lemma {:induction false} ApplyWordsSets(u: Ups, cfg: Config, ws: seq<string>, news: bool, now: int, f: Flag)
    requires Reported(f)
    ensures f in ApplyWords(u, cfg, ws, news, now).status <==> f in u.status || Says(ws, Name(f))
    decreases |ws|
  {
    if ws != [] {
      var u' := UpdateCritTimer(ApplyWord(u, cfg, WordOf(ws[0]), news, now), now);
      ApplyWordSets(u, cfg, WordOf(ws[0]), news, now, f);
      SpellingsApart(ws[0], Name(f));
      ApplyWordsSets(u', cfg, ws[1..], news, now, f);
      SaysHead(ws, Name(f));
    }
  }

  lemma SaysHead(ws: seq<string>, w: Word)
    requires ws != []
    ensures Says(ws, w) <==> Spells(ws[0], w) || Says(ws[1..], w)
  {
    if Says(ws[1..], w) {
      var i :| 0 <= i < |ws[1..]| && Spells(ws[1..][i], w);
      assert Spells(ws[i + 1], w);
    }
  }

  lemma BeforeWordsKeeps(u: Ups, r: Report, now: int, f: Flag)
    requires Reported(f)
    ensures f in BeforeWords(u, r, now).status <==> f in u.status && Contains(r.status, Spelling(Name(f)))
  {
    ClearAbsentKeeps(UpsIsAlive(u, now), r.status, f);
  }

  lemma ClearIfAbsentClears(u: Ups, status: string, f: Flag)
    requires Reported(f)
    ensures ClearIfAbsent(u, status, f).status ==
            if Contains(status, Spelling(Name(f))) then u.status else u.status - {f}
  {
  }

  lemma ClearThree(u: Ups, status: string, a: Flag, b: Flag, c: Flag)
    requires Reported(a) && Reported(b) && Reported(c)
    ensures var u' := ClearIfAbsent(ClearIfAbsent(ClearIfAbsent(u, status, a), status, b), status, c);
            forall f :: f in u'.status <==>
              f in u.status && (f in {a, b, c} ==> Contains(status, Spelling(Name(f))))
  {
    var u1 := ClearIfAbsent(u, status, a);
    var u2 := ClearIfAbsent(u1, status, b);
    ClearIfAbsentClears(u, status, a);
    ClearIfAbsentClears(u1, status, b);
    ClearIfAbsentClears(u2, status, c);
  }

  lemma ClearAbsentKeeps(u: Ups, status: string, f: Flag)
    requires Reported(f)
    ensures f in ClearAbsent(u, status).status <==> f in u.status && Contains(status, Spelling(Name(f)))
  {
    ClearThree(u, status, LowBatt, Fsd, Cal);
    ClearThree(ClearAbsent1(u, status), status, Off, Bypass, Alarm);
    ClearThree(ClearAbsent2(ClearAbsent1(u, status), status), status, Over, Trim, Boost);
  }

  /** After any non-empty status each of the nine flags is set exactly when a word says so, or when
      it was set before and its name still occurs somewhere in the status text. */
  lemma FlagAfterStatus(u: Ups, cfg: Config, r: Report, now: int, f: Flag)
    requires Reported(f) && r.status != ""
    ensures f in ParseStatus(u, cfg, r, now).status <==>
              || Says(Split(r.status), Name(f))
              || (f in u.status && Contains(r.status, Spelling(Name(f))))
  {
    BeforeWordsKeeps(u, r, now, f);
    ApplyWordsSets(BeforeWords(u, r, now), cfg, Split(r.status), r.alarmNews, now, f);
  }

  // ----- the efficiency mode, which a buzzword can report as well -----

  lemma ClearKeepsEco(u: Ups, status: string, f: Flag)
    requires Reported(f)
    ensures Eco in ClearIfAbsent(u, status, f).status <==> Eco in u.status
  {
    ClearIfAbsentClears(u, status, f);
  }

  lemma ClearThreeKeepEco(u: Ups, status: string, a: Flag, b: Flag, c: Flag)
    requires Reported(a) && Reported(b) && Reported(c)
    ensures Eco in ClearIfAbsent(ClearIfAbsent(ClearIfAbsent(u, status, a), status, b), status, c).status <==> Eco in u.status
  {
    ClearKeepsEco(u, status, a);
    ClearKeepsEco(ClearIfAbsent(u, status, a), status, b);
    ClearKeepsEco(ClearIfAbsent(ClearIfAbsent(u, status, a), status, b), status, c);
  }

  lemma EcoBeforeWords(u: Ups, r: Report, now: int)
    ensures Eco in BeforeWords(u, r, now).status <==> InEcoMode(r) || (Eco in u.status && Contains(r.status, "ECO"))
  {
    var u0 := UpsIsAlive(u, now);
    var u1 := ClearAbsent1(u0, r.status);
    ClearThreeKeepEco(u0, r.status, LowBatt, Fsd, Cal);
    ClearThreeKeepEco(u1, r.status, Off, Bypass, Alarm);
    ClearThreeKeepEco(ClearAbsent2(u1, r.status), r.status, Over, Trim, Boost);
  }

  lemma WordSetsEco(u: Ups, cfg: Config, w: Word, news: bool, now: int)
    ensures Eco in ApplyWord(u, cfg, w, news, now).status <==> Eco in u.status || w == ECO
  {
  }

  lemma {:induction false} WordsSetEco(u: Ups, cfg: Config, ws: seq<string>, news: bool, now: int)
    ensures Eco in ApplyWords(u, cfg, ws, news, now).status <==> Eco in u.status || Says(ws, ECO)
    decreases |ws|
  {
    if ws != [] {
      WordSetsEco(u, cfg, WordOf(ws[0]), news, now);
      SpellingsApart(ws[0], ECO);
      WordsSetEco(UpdateCritTimer(ApplyWord(u, cfg, WordOf(ws[0]), news, now), now), cfg, ws[1..], news, now);
      SaysHead(ws, ECO);
    }
  }

  /** The tenth flag follows the buzzwords as well, and every buzzword that lacks one of the four marks
      counts. */
  lemma EcoAfterStatus(u: Ups, cfg: Config, r: Report, now: int)
    requires r.status != ""
    ensures Eco in ParseStatus(u, cfg, r, now).status <==>
              || Says(Split(r.status), ECO) || InEcoMode(r)
              || (Eco in u.status && Contains(r.status, "ECO"))
  {
    EcoBeforeWords(u, r, now);
    WordsSetEco(BeforeWords(u, r, now), cfg, Split(r.status), r.alarmNews, now);
  }

  // ----- statuses made of the known words -----

  /** The words of the status chapter of the driver documentation that upsmon knows. */
  predicate InVocabulary(w: string) {
    ShortWord(w) || LongWord(w)
  }

  predicate ShortWord(w: string) {
    || w == "OL" || w == "OB" || w == "LB" || w == "RB" || w == "HB" || w == ""
    || w == "CAL" || w == "OFF" || w == "ECO" || w == "FSD"
  }

  predicate LongWord(w: string) {
    || w == "OVER" || w == "TRIM" || w == "CHRG" || w == "BOOST" || w == "ALARM" || w == "BYPASS" || w == "DISCHRG"
  }

  /** None of the nine names is part of another known word. */
  lemma KnownWordContains(w: string, f: Flag)
    requires Reported(f) && InVocabulary(w) && Contains(w, Spelling(Name(f)))
    ensures w == Spelling(Name(f))
  {
    var name := Spelling(Name(f));
    var i: nat :| i <= |w| && OccursAt(w, name, i);
    assert w[i] == w[i..i + |name|][0] == name[0];
    assert w[i + 1] == w[i..i + |name|][1] == name[1];
    assert |name| == |w| ==> w[i..i + |name|] == w;
    if ShortWord(w) {
      ShortWordHolds(w, f, i);
    } else {
      LongWordHolds(w, f, i);
    }
  }

  lemma ShortWordHolds(w: string, f: Flag, i: nat)
    requires Reported(f) && ShortWord(w) && i + |Spelling(Name(f))| <= |w|
    requires w[i] == Spelling(Name(f))[0] && w[i + 1] == Spelling(Name(f))[1]
    ensures |w| == |Spelling(Name(f))|
  {
  }

  lemma LongWordHolds(w: string, f: Flag, i: nat)
    requires Reported(f) && LongWord(w) && i + |Spelling(Name(f))| <= |w|
    requires w[i] == Spelling(Name(f))[0] && w[i + 1] == Spelling(Name(f))[1]
    ensures |w| == |Spelling(Name(f))|
  {
  }

  lemma ContainsTail(s: string, name: string)
    requires s != "" && Contains(s[1..], name)
    ensures Contains(s, name)
  {
    var i: nat :| i <= |s[1..]| && OccursAt(s[1..], name, i);
    SliceBehind(s, 1, i, |name|);
    assert OccursAt(s, name, i + 1);
  }

  predicate InSomePiece(pieces: seq<string>, name: string) {
    exists k :: 0 <= k < |pieces| && Contains(pieces[k], name)
  }

  lemma LaterPiece(head: string, pieces: seq<string>, name: string)
    requires InSomePiece(pieces, name)
    ensures InSomePiece([head] + pieces, name)
  {
    var k :| 0 <= k < |pieces| && Contains(pieces[k], name);
    assert ([head] + pieces)[k + 1] == pieces[k];
  }

  lemma LongerPiece(c: char, pieces: seq<string>, name: string)
    requires pieces != [] && InSomePiece(pieces, name)
    ensures InSomePiece([[c] + pieces[0]] + pieces[1..], name)
  {
    var all := [[c] + pieces[0]] + pieces[1..];
    var k :| 0 <= k < |pieces| && Contains(pieces[k], name);
    if k == 0 {
      assert all[0][1..] == pieces[0];
      ContainsTail(all[0], name);
    } else {
      assert all[k] == pieces[k];
    }
  }

  lemma PieceKept(s: string, name: string)
    requires s != "" && InSomePiece(Split(s[1..]), name)
    ensures InSomePiece(Split(s), name)
  {
    if s[0] == ' ' {
      LaterPiece("", Split(s[1..]), name);
    } else {
      LongerPiece(s[0], Split(s[1..]), name);
    }
  }

  /** An occurrence of a word without spaces lies within one piece of the split text. */
  lemma {:induction false} OccursInPiece(s: string, name: string, i: nat)
    requires name != "" && ' ' !in name && OccursAt(s, name, i)
    ensures InSomePiece(Split(s), name)
    decreases |s|
  {
    if i > 0 {
      SliceBehind(s, 1, i - 1, |name|);
      OccursInPiece(s[1..], name, i - 1);
      PieceKept(s, name);
    } else {
      PrefixOfPiece(s, name);
      assert OccursAt(Split(s)[0], name, 0);
    }
  }

  lemma {:induction false} PrefixOfPiece(s: string, name: string)
    requires ' ' !in name && name <= s
    ensures name <= Split(s)[0]
    decreases |s|
  {
    if name != "" {
      assert name[0] in name;
      PrefixOfPiece(s[1..], name[1..]);
      assert Split(s)[0] == [s[0]] + Split(s[1..])[0];
    }
  }

  /** For a status made of the known upper-case words, each flag is set exactly when its word is
      there, whatever was set before. */
  lemma KnownStatusSetsExactly(u: Ups, cfg: Config, r: Report, now: int, f: Flag)
    requires Reported(f) && r.status != ""
    requires forall k :: 0 <= k < |Split(r.status)| ==> InVocabulary(Split(r.status)[k])
    ensures f in ParseStatus(u, cfg, r, now).status <==> Spelling(Name(f)) in Split(r.status)
  {
    FlagAfterStatus(u, cfg, r, now, f);
    KnownWordsSay(Split(r.status), Name(f));
    if Contains(r.status, Spelling(Name(f))) {
      KnownTextContains(r.status, f);
    }
  }

  lemma KnownWordsSay(ws: seq<string>, x: Word)
    requires x != NoReaction && forall k :: 0 <= k < |ws| ==> InVocabulary(ws[k])
    ensures Says(ws, x) <==> Spelling(x) in ws
  {
    forall k | 0 <= k < |ws| && Spells(ws[k], x)
      ensures ws[k] == Spelling(x)
    {
      KnownWordSpells(ws[k], x);
    }
    if Spelling(x) in ws {
      var k :| 0 <= k < |ws| && ws[k] == Spelling(x);
      assert Spells(ws[k], x);
    }
  }

  lemma NameHasNoSpace(f: Flag)
    requires Reported(f)
    ensures ' ' !in Spelling(Name(f)) && Spelling(Name(f)) != ""
  {
  }

  lemma KnownTextContains(status: string, f: Flag)
    requires Reported(f) && Contains(status, Spelling(Name(f)))
    requires forall k :: 0 <= k < |Split(status)| ==> InVocabulary(Split(status)[k])
    ensures Spelling(Name(f)) in Split(status)
  {
    var ws, name := Split(status), Spelling(Name(f));
    NameHasNoSpace(f);
    var i: nat :| i <= |status| && OccursAt(status, name, i);
    OccursInPiece(status, name, i);
    var k :| 0 <= k < |ws| && Contains(ws[k], name);
    KnownWordContains(ws[k], f);
  }

  lemma KnownWordSpells(w: string, x: Word)
    requires InVocabulary(w) && Spells(w, x) && x != NoReaction
    ensures w == Spelling(x)
  {
    forall i | 0 <= i < |w|
      ensures w[i] == Spelling(x)[i]
    {
      assert Lower(w[i]) == Lower(Spelling(x)[i]);
    }
  }
}
