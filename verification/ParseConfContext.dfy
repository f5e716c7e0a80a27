// The parser context of common/parseconf.c with its storage: the growing word buffer and the
// list of argument buffers that are reallocated in place from line to line. Every method is
// proved to do to the context what the functions of module ParseConf say.
module ParseConfContext {
  import opened Text
  import opened ParseConf

  /** The C strings held by a list of buffers. */
  ghost function Strings(buffers: seq<array<char>>): (r: seq<string>)
    reads buffers
    ensures |r| == |buffers|
    ensures forall i {:trigger r[i]} :: 0 <= i < |buffers| ==> r[i] == CString(buffers[i][..])
  {
    seq(|buffers|, i requires 0 <= i < |buffers| reads buffers => CString(buffers[i][..]))
  }

  /** Only slots below `used` may have changed, and the list grew no further than that. */
  predicate KeepsSlots(was: seq<string>, slots: seq<string>, used: nat) {
    && |slots| == (if used > |was| then used else |was|)
    && forall k :: used <= k < |was| ==> slots[k] == was[k]
  }

  lemma SlotsKept(was: seq<string>, slots: seq<string>, args: seq<string>)
    requires KeepsSlots(was, slots, |args|) && slots[..|args|] == args
    ensures slots == SlotsAfter(was, args)
  {
    assert slots == slots[..|args|] + slots[|args|..];
    assert |args| < |was| ==> slots[|args|..] == was[|args|..];
  }

  lemma KeepsTwice(was: seq<string>, mid: seq<string>, slots: seq<string>, m: nat, n: nat)
    requires m <= n && KeepsSlots(was, mid, m) && KeepsSlots(mid, slots, n)
    ensures KeepsSlots(was, slots, n)
  {
  }

  class Context {
    var state: State
    var ch: char
    var arglist: seq<array<char>>  // may hold stale words beyond numargs
    var argsize: seq<nat>
    var numargs: nat
    var maxargs: nat
    var wordbuf: array<char>
    var wordptr: nat
    var wordbufsize: nat
    var error: bool
    var linenum: nat
    const limits: Limits
    var input: string  // what is left to read of the open file
    ghost var Repr: set<object>

    ghost predicate Valid()
      reads this, Repr
      ensures Valid() ==> this in Repr
    {
      && this in Repr && wordbuf in Repr && (forall i :: 0 <= i < |arglist| ==> arglist[i] in Repr)
      && wordbuf.Length == wordbufsize
      && wordptr < wordbufsize && wordbuf[wordptr] == NUL
      && (forall i :: 0 <= i < wordptr ==> wordbuf[i] != NUL)
      && numargs <= maxargs == |arglist| == |argsize|
      && (forall i :: 0 <= i < maxargs ==> arglist[i].Length == argsize[i] && arglist[i] != wordbuf)
      && (forall i, j :: 0 <= i < j < maxargs ==> arglist[i] != arglist[j])
    }

    /** The storage read as a plain list of words and a word under construction. */
    ghost function View(): Scan
      requires Valid()
      reads Repr
    {
      Scan(state, wordbuf[..wordptr], Strings(arglist[..numargs]), error)
    }

    /** What the argument slots hold, the stale ones beyond the current line's arguments included */
    ghost function Slots(): seq<string>
      requires Valid()
      reads Repr
    {
      Strings(arglist)
    }

    /** pconf_init, with the limits of the caller's choice */
    constructor (lim: Limits)
      ensures Valid() && fresh(Repr) && View() == IDLE && Slots() == [] && limits == lim && linenum == 0
    {
      state := State.FindWordStart;
      ch := NUL;
      arglist, argsize, numargs, maxargs := [], [], 0, 0;
      wordbufsize, wordptr := 16, 0;
      var zeroed := new char[16](_ => NUL);
      wordbuf := zeroed;
      error, linenum, limits, input := false, 0, lim, "";
      Repr := {this, zeroed};
    }

    /** Makes room in the argument list for a word of `wbuflen` characters at position `argpos`,
        keeping the arguments before it. */
    method ReserveArg(argpos: nat, wbuflen: nat)
      requires Valid() && argpos == numargs
      modifies `numargs, `maxargs, `arglist, `argsize, `Repr
      ensures Valid() && fresh(Repr - old(Repr))
      ensures numargs == argpos + 1 && wbuflen < argsize[argpos]
      ensures arglist[..argpos] == old(arglist)[..argpos]
      ensures |arglist| == (if numargs > |old(arglist)| then numargs else |old(arglist)|)
      ensures forall k :: numargs <= k < |old(arglist)| ==> arglist[k] == old(arglist)[k]
    {
      if numargs == maxargs {
        AddSlot();
      }
      numargs := numargs + 1;
      if wbuflen >= argsize[argpos] {
        GrowSlot(argpos, wbuflen);
      }
    }

    /** One more slot, still without storage, at the end of the list */
    method AddSlot()
      requires Valid()
      modifies `maxargs, `arglist, `argsize, `Repr
      ensures Valid() && fresh(Repr - old(Repr))
      ensures maxargs == old(maxargs) + 1 && arglist[..old(maxargs)] == old(arglist)
    {
      var none := new char[0];
      maxargs := maxargs + 1;
      arglist, argsize, Repr := arglist + [none], argsize + [0], Repr + {none};
    }

    method GrowSlot(argpos: nat, wbuflen: nat)
      requires Valid() && argpos < maxargs
      modifies `arglist, `argsize, `Repr
      ensures Valid() && fresh(Repr - old(Repr))
      ensures wbuflen < argsize[argpos] && arglist[..argpos] == old(arglist)[..argpos]
      ensures |arglist| == |old(arglist)| && forall k :: argpos < k < |arglist| ==> arglist[k] == old(arglist)[k]
    {
      var grown := new char[wbuflen + 1];
      arglist, argsize := arglist[argpos := grown], argsize[argpos := wbuflen + 1];
      Repr := Repr + {grown};
    }

    /** memset, then strncpy */
    method StoreString(slot: array<char>, text: string)
      requires |text| < slot.Length && NUL !in text
      modifies slot
      ensures CString(slot[..]) == text
    {
      forall i | 0 <= i < slot.Length {
        slot[i] := if i < |text| then text[i] else NUL;
      }
      CStringIsPrefix(slot[..], |text|);
      assert slot[..][..|text|] == text;
    }

    method AddArgWord()
      requires Valid()
      modifies Repr
      ensures Valid() && fresh(Repr - old(Repr))
      ensures wordbuf[..] == old(wordbuf[..])
      ensures View() == old(View()).(args := old(View().args) + [old(View().word)])
      ensures KeepsSlots(old(Slots()), Slots(), numargs)
      ensures unchanged(`ch, `linenum, `input, `wordbuf, `wordptr, `wordbufsize)
    {
      ghost var args0 := Strings(arglist[..numargs]);
      CStringIsPrefix(wordbuf[..], wordptr);
      var text := CString(wordbuf[..]);
      assert text == wordbuf[..wordptr];
      var argpos := numargs;
      ReserveArg(argpos, |text|);
      assert Strings(arglist[..argpos]) == args0;
      StoreString(arglist[argpos], text);
      assert Strings(arglist[..argpos]) == args0;
      StringsSnoc(arglist, argpos);
    }

    lemma StringsSnoc(buffers: seq<array<char>>, n: nat)
      requires n < |buffers|
      ensures Strings(buffers[..n + 1]) == Strings(buffers[..n]) + [CString(buffers[n][..])]
    {
      assert buffers[..n + 1][..n] == buffers[..n];
    }

    method GrowWordbuf()
      requires Valid()
      modifies `wordbuf, `wordbufsize, `Repr
      ensures Valid() && fresh(Repr - old(Repr))
      ensures wordbufsize == old(wordbufsize) + 8
      ensures wordbuf[..wordptr] == old(wordbuf[..wordptr])
    {
      var grown := new char[wordbufsize + 8];
      forall i | 0 <= i < wordbufsize {
        grown[i] := wordbuf[i];
      }
      wordbufsize, wordbuf, Repr := wordbufsize + 8, grown, Repr + {grown};
    }

    method AddChar()
      requires Valid()
      modifies Repr
      ensures Valid() && fresh(Repr - old(Repr))
      ensures View() == ParseConf.AddChar(old(View()), limits, ch)
      ensures Slots() == old(Slots())
      ensures unchanged(`ch, `linenum, `input)
    {
      CStringIsPrefix(wordbuf[..], wordptr);
      var wbuflen := |CString(wordbuf[..])|;
      assert wbuflen == wordptr;
      if ch < ' ' || ch > '\U{7f}' {
        return;
      }
      if limits.wordLen != 0 {
        if wbuflen >= limits.wordLen {
          return;
        }
      }
      if wbuflen >= wordbufsize - 1 {
        MakeRoom(wbuflen);
      }
      PutChar();
    }

    method MakeRoom(wbuflen: nat)
      requires Valid() && wbuflen == wordptr
      modifies `wordbuf, `wordbufsize, `wordptr, `Repr
      ensures Valid() && fresh(Repr - old(Repr))
      ensures View() == old(View()) && wordptr + 1 < wordbufsize
      ensures Slots() == old(Slots())
    {
      GrowWordbuf();
      wordptr := wbuflen;
    }

    method PutChar()
      requires Valid() && wordptr + 1 < wordbufsize && ch != NUL
      modifies `wordptr, wordbuf
      ensures Valid()
      ensures View() == old(View()).(word := old(View().word) + [ch])
      ensures Slots() == old(Slots())
    {
      ghost var args0 := Strings(arglist[..numargs]);
      wordbuf[wordptr] := ch;
      wordptr := wordptr + 1;
      wordbuf[wordptr] := NUL;
      assert Strings(arglist[..numargs]) == args0;
      assert wordbuf[..wordptr] == old(wordbuf[..wordptr]) + [ch];
    }

    method ClearWord()
      requires Valid()
      modifies `wordptr, wordbuf
      ensures Valid() && View() == old(View()).(word := "")
      ensures Slots() == old(Slots())
    {
      ghost var args0 := Strings(arglist[..numargs]);
      wordptr := 0;
      wordbuf[0] := NUL;
      assert Strings(arglist[..numargs]) == args0;
    }

    method EndOfWord()
      requires Valid()
      modifies Repr
      ensures Valid() && fresh(Repr - old(Repr))
      ensures View() == ParseConf.EndOfWord(old(View()), limits)
      ensures KeepsSlots(old(Slots()), Slots(), numargs)
      ensures unchanged(`ch, `linenum, `input)
    {
      if limits.args != 0 {
        if numargs >= limits.args {
          ClearWord();
          return;
        }
      }
      AddArgWord();
      ClearWord();
    }

    method FindWordStart() returns (next: State)
      requires Valid()
      modifies Repr
      ensures Valid() && fresh(Repr - old(Repr))
      ensures View().(state := next) == StepFindWordStart(old(View()), limits, ch)
      ensures KeepsSlots(old(Slots()), Slots(), numargs)
      ensures unchanged(`ch, `linenum, `input)
    {
      if ch == '\n' { return EndOfLine; }
      if ch == '#' { return State.FindEol; }
      if IsSpace(ch) { return State.FindWordStart; }
      if ch == '\\' { return State.CollectLiteral; }
      if ch == '"' { return State.QuoteCollect; }
      AddChar();
      if ch == '=' {
        EndOfWord();
        return State.FindWordStart;
      }
      return State.Collect;
    }

    method FindEol() returns (next: State)
      requires Valid()
      ensures View().(state := next) == StepFindEol(View(), ch)
    {
      if ch == '\n' { return EndOfLine; }
      return State.FindEol;
    }

    method QuoteCollect() returns (next: State)
      requires Valid()
      modifies Repr
      ensures Valid() && fresh(Repr - old(Repr))
      ensures View().(state := next) == StepQuoteCollect(old(View()), limits, ch)
      ensures KeepsSlots(old(Slots()), Slots(), numargs)
      ensures unchanged(`ch, `linenum, `input)
    {
      if ch == '#' {
        error := true;
        EndOfWord();
        return ParseErr;
      }
      if ch == '"' {
        EndOfWord();
        return State.FindWordStart;
      }
      if ch == '\\' { return State.QcLiteral; }
      AddChar();
      return State.QuoteCollect;
    }

    method QcLiteral() returns (next: State)
      requires Valid()
      modifies Repr
      ensures Valid() && fresh(Repr - old(Repr))
      ensures View().(state := next) == StepQcLiteral(old(View()), limits, ch)
      ensures KeepsSlots(old(Slots()), Slots(), numargs)
      ensures unchanged(`ch, `linenum, `input)
    {
      if ch == '\n' { return State.QuoteCollect; }
      AddChar();
      return State.QuoteCollect;
    }

    method Collect() returns (next: State)
      requires Valid()
      modifies Repr
      ensures Valid() && fresh(Repr - old(Repr))
      ensures View().(state := next) == StepCollect(old(View()), limits, ch)
      ensures KeepsSlots(old(Slots()), Slots(), numargs)
      ensures unchanged(`ch, `linenum, `input)
    {
      if ch == '#' {
        EndOfWord();
        return State.FindEol;
      }
      if ch == '\n' {
        EndOfWord();
        return EndOfLine;
      }
      if IsSpace(ch) {
        EndOfWord();
        return State.FindWordStart;
      }
      if ch == '=' {
        EndOfWord();
        var ignored := FindWordStart();
        return State.FindWordStart;
      }
      if ch == '\\' { return State.CollectLiteral; }
      AddChar();
      return State.Collect;
    }

    method CollectLiteral() returns (next: State)
      requires Valid()
      modifies Repr
      ensures Valid() && fresh(Repr - old(Repr))
      ensures View().(state := next) == StepCollectLiteral(old(View()), limits, ch)
      ensures KeepsSlots(old(Slots()), Slots(), numargs)
      ensures unchanged(`ch, `linenum, `input)
    {
      if ch == '\n' { return State.Collect; }
      AddChar();
      return State.Collect;
    }

    method NextState() returns (next: State)
      requires Valid()
      modifies Repr
      ensures Valid() && fresh(Repr - old(Repr))
      ensures View().(state := next) == Step(old(View()), limits, ch)
      ensures KeepsSlots(old(Slots()), Slots(), numargs)
      ensures unchanged(`ch, `linenum, `input)
    {
      match state {
        case FindWordStart => next := FindWordStart();
        case FindEol => next := FindEol();
        case QuoteCollect => next := QuoteCollect();
        case QcLiteral => next := QcLiteral();
        case Collect => next := Collect();
        case CollectLiteral => next := CollectLiteral();
        case _ => next := state;
      }
    }

    method ParseChar(c: char)
      requires Valid()
      modifies Repr
      ensures Valid() && fresh(Repr - old(Repr))
      ensures View() == Step(old(View()), limits, c)
      ensures KeepsSlots(old(Slots()), Slots(), numargs)
      ensures unchanged(`linenum, `input)
    {
      ch := c;
      var next := NextState();
      state := next;
    }

    method StartLine()
      requires Valid()
      modifies `state, `numargs
      ensures Valid() && View() == Fresh(old(View()))
      ensures Slots() == old(Slots())
    {
      numargs := 0;
      state := State.FindWordStart;
    }

    method TieOff()
      requires Valid()
      modifies Repr
      ensures Valid() && fresh(Repr - old(Repr))
      ensures View() == ParseConf.TieOff(old(View()), limits)
      ensures KeepsSlots(old(Slots()), Slots(), numargs)
      ensures unchanged(`linenum, `input)
    {
      if wordptr != 0 {
        EndOfWord();
      }
    }

    /** What a caller finds in arglist[i] */
    function Slot(i: nat): string
      requires Valid() && i < maxargs
      reads Repr
      ensures Slot(i) == Slots()[i]
    {
      CString(arglist[i][..])
    }

    /** The words a caller finds in arglist[0 .. numargs] */
    method Words() returns (words: seq<string>)
      requires Valid()
      ensures words == View().args
    {
      words := [];
      var i := 0;
      while i < numargs
        invariant i <= numargs && words == Strings(arglist[..i])
      {
        StringsSnoc(arglist, i);
        words := words + [CString(arglist[i][..])];
        i := i + 1;
      }
    }

    lemma SlotsDone(was: seq<string>)
      requires Valid() && KeepsSlots(was, Slots(), numargs)
      ensures Slots() == SlotsAfter(was, View().args)
    {
      assert Slots()[..numargs] == View().args;
      SlotsKept(was, Slots(), View().args);
    }

    /** One turn of pconf_line's loop */
    method LineChar(c: char, ghost was: seq<string>)
      requires Valid() && KeepsSlots(was, Slots(), numargs)
      modifies Repr
      ensures Valid() && fresh(Repr - old(Repr))
      ensures View() == Step(old(View()), limits, c) && KeepsSlots(was, Slots(), numargs)
      ensures unchanged(`linenum, `input)
    {
      ghost var mid := Slots();
      StepKeepsArgs(View(), limits, c);
      ParseChar(c);
      KeepsTwice(was, mid, Slots(), old(numargs), numargs);
    }

    /** The loop of pconf_line: whether it ended before the string did */
    method LineChars(line: string, ghost was: seq<string>) returns (stopped: bool)
      requires Valid() && !Stopped(View()) && KeepsSlots(was, Slots(), numargs)
      modifies Repr
      ensures Valid() && fresh(Repr - old(Repr))
      ensures View() == Run(old(View()), limits, line) && stopped == Stopped(View())
      ensures KeepsSlots(was, Slots(), numargs) && unchanged(`linenum, `input)
    {
      ghost var start := View();
      var i := 0;
      while i < |line|
        invariant i <= |line| && Valid() && fresh(Repr - old(Repr))
        invariant !Stopped(View()) && unchanged(`linenum, `input) && KeepsSlots(was, Slots(), numargs)
        invariant Run(start, limits, line) == Run(View(), limits, line[i..])
      {
        assert line[i..][1..] == line[i + 1..];
        LineChar(line[i], was);
        i := i + 1;
        if state == ParseErr || state == EndOfLine {
          RunStopped(View(), limits, line[i..]);
          return true;
        }
      }
      return false;
    }

    /** pconf_line: always has a line to report */
    method Line(line: string)
      requires Valid()
      modifies Repr
      ensures Valid() && fresh(Repr - old(Repr))
      ensures View() == ParseLine(old(View()), limits, line)
      ensures Slots() == SlotsAfter(old(Slots()), View().args)
      ensures linenum == old(linenum) + 1 && input == old(input)
    {
      linenum := linenum + 1;
      StartLine();
      ghost var was := Slots();
      var stopped := LineChars(line, was);
      if !stopped {
        FinishLine(was);
      }
      SlotsDone(was);
    }

    method FinishLine(ghost was: seq<string>)
      requires Valid() && KeepsSlots(was, Slots(), numargs)
      modifies Repr
      ensures Valid() && fresh(Repr - old(Repr))
      ensures View() == ParseConf.TieOff(old(View()), limits) && KeepsSlots(was, Slots(), numargs)
      ensures unchanged(`linenum, `input)
    {
      ghost var mid := Slots();
      TieOff();
      KeepsTwice(was, mid, Slots(), old(numargs), numargs);
    }

    /** pconf_char: 1 when a line is complete, -1 after a parse error, else 0 */
    method Char(c: char) returns (result: int)
      requires Valid()
      modifies Repr
      ensures Valid() && fresh(Repr - old(Repr))
      ensures View() == FeedChar(old(View()), limits, c)
      ensures Slots() == SlotsAfter(old(Slots()), View().args)
      ensures result == match View().state case EndOfLine => 1 case ParseErr => -1 case _ => 0
      ensures unchanged(`linenum, `input)
    {
      if state == EndOfLine || state == ParseErr {
        StartLine();
      }
      ParseChar(c);
      SlotsDone(old(Slots()));
      if state == EndOfLine { return 1; }
      if state == ParseErr { return -1; }
      return 0;
    }

    /** fgetc, then parse_char */
    method ReadChar()
      requires Valid() && input != ""
      modifies Repr
      ensures Valid() && fresh(Repr - old(Repr))
      ensures View() == Step(old(View()), limits, old(input)[0])
      ensures input == old(input)[1..] && unchanged(`linenum)
    {
      var c := input[0];
      input := input[1..];
      ParseChar(c);
    }

    /** pconf_file_next */
    method FileNext() returns (ok: bool)
      requires Valid()
      modifies Repr
      ensures Valid() && fresh(Repr - old(Repr))
      ensures FileResult(ok, View(), input) == ParseConf.FileNext(old(View()), limits, old(input))
      ensures linenum == old(linenum) + 1
    {
      linenum := linenum + 1;
      StartLine();
      ghost var start := View();
      while input != ""
        invariant Valid() && fresh(Repr - old(Repr))
        invariant !Stopped(View()) && linenum == old(linenum) + 1
        invariant ReadLine(start, limits, old(input)) == ReadLine(View(), limits, input)
        decreases |input|
      {
        ReadChar();
        if state == ParseErr || state == EndOfLine {
          return true;
        }
      }
      if numargs != 0 {
        TieOff();
        return true;
      }
      return false;
    }
  }

  /** How many characters of `src` can be encoded whole in `room` bytes. */
  function FitCount(src: string, room: nat): (n: nat)
    ensures n <= |src|
  {
    if src == "" || |EncodeChar(src[0])| > room then 0
    else 1 + FitCount(src[1..], room - |EncodeChar(src[0])|)
  }

  /** FitCount is the longest prefix whose whole encoding fits, and no longer one does. */
  lemma {:induction false} FitCountIsLongest(src: string, room: nat, n: nat)
    requires n <= |src|
    ensures |Encode(src[..n])| <= room <==> n <= FitCount(src, room)
  {
    if n > 0 {
      assert src[..n][0] == src[0] && src[..n][1..] == src[1..][..n - 1];
      if |EncodeChar(src[0])| <= room {
        FitCountIsLongest(src[1..], room - |EncodeChar(src[0])|, n - 1);
      }
    }
  }

  lemma EncodeNext(src: string, i: nat)
    requires i < |src|
    ensures Encode(src[..i + 1]) == Encode(src[..i]) + EncodeChar(src[i])
  {
    EncodeConcat(src[..i], [src[i]]);
    assert src[..i] + [src[i]] == src[..i + 1];
    assert Encode([src[i]]) == EncodeChar(src[i]) + Encode("");
  }

  lemma {:induction false} FitCountFrom(src: string, room: nat, i: nat)
    requires i <= |src| && |Encode(src[..i])| <= room
    ensures FitCount(src, room) == i + FitCount(src[i..], room - |Encode(src[..i])|)
    decreases i
  {
    if i == 0 {
      assert src[0..] == src;
    } else {
      assert src[..i][0] == src[0] && src[..i][1..] == src[1..][..i - 1];
      assert src[1..][i - 1..] == src[i..];
      FitCountFrom(src[1..], room - |EncodeChar(src[0])|, i - 1);
    }
  }

  /** The one case in which pconf_encode leaves its buffer without a terminating zero: the room
      computed for a one-byte buffer wraps around before an escaped character. */
  predicate OverrunsOneByte(src: string, destsize: nat) {
    destsize == 1 && src != "" && Special(src[0])
  }

  /** The buffer holds `text` and nothing but zero bytes after it. */
  ghost predicate Holds(dest: array<char>, text: string)
    reads dest
  {
    |text| < dest.Length && dest[..|text|] == text && forall i :: |text| <= i < dest.Length ==> dest[i] == NUL
  }

  method PutNext(dest: array<char>, destlen: nat, c: char, ghost text: string)
    requires Holds(dest, text) && destlen == |text| && destlen + 1 < dest.Length
    modifies dest
    ensures Holds(dest, text + [c])
  {
    dest[destlen] := c;
    assert dest[..destlen] == text;
    assert dest[..destlen + 1] == text + [c];
  }

  /** One turn of pconf_encode's loop: the new length, unless there is no room for the character */
  method PutEncoded(dest: array<char>, destlen: nat, c: char, ghost text: string) returns (len: nat, full: bool)
    requires Holds(dest, text) && destlen == |text|
    requires dest.Length == 1 && Special(c) ==> text == ""
    modifies dest
    ensures dest.Length == 1 && Special(c) ==> full && dest[..] == ['\\']
    ensures !(dest.Length == 1 && Special(c)) ==>
              && (full <==> |text + EncodeChar(c)| > dest.Length - 1)
              && Holds(dest, if full then text else text + EncodeChar(c))
              && (!full ==> len == |text + EncodeChar(c)|)
  {
    var maxlen := dest.Length - 1;
    len := destlen;
    ghost var written := text;
    if Special(c) {
      if maxlen == 0 {
        // maxlen - 1 wraps around to the largest size, so the room test lets the escape through
        dest[len] := '\\';
        return len, true;
      }
      if len >= maxlen - 1 {
        return len, true;
      }
      PutNext(dest, len, '\\', written);
      written := written + ['\\'];
      len := len + 1;
    }
    if len >= maxlen {
      return len, true;
    }
    PutNext(dest, len, c, written);
    assert written + [c] == text + EncodeChar(c);
    len := len + 1;
    full := false;
  }

  /** pconf_encode */
  method EncodeInto(src: string, dest: array<char>)
    modifies dest
    ensures dest.Length >= 1 && !OverrunsOneByte(src, dest.Length) ==>
              Holds(dest, Encode(src[..FitCount(src, dest.Length - 1)]))
    ensures OverrunsOneByte(src, dest.Length) ==> dest[..] == ['\\']
  {
    if dest.Length < 1 { return; }
    forall i | 0 <= i < dest.Length {
      dest[i] := NUL;
    }
    ghost var maxlen := dest.Length - 1;
    var destlen := 0;
    var i := 0;
    while i < |src|
      invariant i <= |src| && destlen == |Encode(src[..i])| <= maxlen
      invariant OverrunsOneByte(src, dest.Length) ==> i == 0
      invariant Holds(dest, Encode(src[..i]))
    {
      EncodeNext(src, i);
      FitCountFrom(src, maxlen, i);
      var full;
      destlen, full := PutEncoded(dest, destlen, src[i], Encode(src[..i]));
      if full {
        return;
      }
      i := i + 1;
    }
    FitCountFrom(src, maxlen, i);
  }

  lemma {:induction false} EncodeAddsNoNul(s: string)
    requires NUL !in s
    ensures NUL !in Encode(s)
  {
    if s != "" {
      assert s[0] in s;
      EncodeAddsNoNul(s[1..]);
    }
  }

  /** What a caller reads out of a buffer of `size` bytes after pconf_encode. */
  function EncodedIn(src: string, size: nat): string
    requires size > 0
  {
    Encode(src[..FitCount(src, size - 1)])
  }

  lemma EncodedInWhole(src: string, size: nat)
    requires |Encode(src)| < size
    ensures EncodedIn(src, size) == Encode(src)
  {
    FitCountIsLongest(src, size - 1, |src|);
    assert src[..|src|] == src;
  }

  /** What a too small scratch buffer holds is a prefix of the encoding, nearly as long as the buffer. */
  lemma EncodedInPrefix(arg: string, size: nat)
    requires size > 1
    ensures EncodedIn(arg, size) <= Encode(arg)
    ensures EncodedIn(arg, size) == Encode(arg) || |EncodedIn(arg, size)| >= size - 2
  {
    var n := FitCount(arg, size - 1);
    assert arg == arg[..n] + arg[n..];
    EncodeConcat(arg[..n], arg[n..]);
    if n == |arg| {
      assert arg[n..] == "" && Encode(arg[n..]) == "";
    } else {
      FitCountIsLongest(arg, size - 1, n + 1);
      EncodeNext(arg, n);
    }
  }

  /** Cutting an argument to the scratch buffer does not show once the message is cut shorter. */
  lemma CutEncodingAgrees(before: string, arg: string, after: string, max: nat, size: nat)
    requires max + 1 < size && before != ""
    ensures Clip(before + EncodedIn(arg, size) + after, max) == Clip(before + Encode(arg) + after, max)
  {
    EncodedInPrefix(arg, size);
    var e, whole := EncodedIn(arg, size), Encode(arg);
    if e != whole {
      PrefixThen(e, whole);
      ClipInserted(before, e, whole[|e|..], after, max);
    }
  }

  lemma PrefixThen(e: string, whole: string)
    requires e <= whole
    ensures whole == e + whole[|e|..]
  {
  }

  lemma ClipInserted(before: string, e: string, rest: string, after: string, max: nat)
    requires max <= |before| + |e|
    ensures Clip(before + e + after, max) == Clip(before + (e + rest) + after, max)
  {
    assert before + (e + rest) + after == (before + e) + (rest + after);
    ClipPastPrefix(before + e, after, rest + after, max);
  }

  lemma ClipPastPrefix(a: string, x: string, y: string, max: nat)
    requires max <= |a|
    ensures Clip(a + x, max) == Clip(a + y, max)
  {
    assert (a + x)[..max] == a[..max] == (a + y)[..max];
  }

  /** pconf_encode into a scratch buffer of the caller's */
  method EncodeText(src: string, size: nat) returns (text: string)
    requires NUL !in src && size > 1
    ensures text == EncodedIn(src, size) && NUL !in text
  {
    var enc := new char[size];
    EncodeInto(src, enc);
    EncodeAddsNoNul(src[..FitCount(src, size - 1)]);
    assert enc[..][..|EncodedIn(src, size)|] == EncodedIn(src, size);
    TextStored(enc[..], EncodedIn(src, size));
    return CString(enc[..]);
  }

  /** Whatever the size of the buffer, the encoding in it never ends in a dangling escape: the
      scanner comes out of it still collecting, with the encoded prefix as its word. */
  lemma EncodedPrefixReadsBack(s: Scan, src: string, room: nat)
    requires s.state == QuoteCollect && s.word == "" && AllPrintable(src)
    ensures var n := FitCount(src, room);
            Run(s, Limits(0, 0), Encode(src[..n])) == s.(word := src[..n])
  {
    var n := FitCount(src, room);
    RunEncoded(s, Limits(0, 0), "", src[..n]);
    assert "" + src[..n] == src[..n];
  }
}
