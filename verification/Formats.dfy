// The check of run-time printf formats in common/common.c: minimized formatting strings and the
// comparison of a dynamic format with the reference that the arguments were written for.
module Formats {
  import opened Text

  /** Characters inside a conversion that change what is taken from the argument list. */
  predicate Modifier(c: char) {
    c in "lLhzjt*"
  }

  /** The basic type a conversion character stands for. */
  function Kind(c: char): Option<char> {
    if c in "di" then Some('i')
    else if c in "uoxX" then Some('u')
    else if c in "feEgGFaA" then Some('f')
    else if c in "cspn" then Some(c)
    else None
  }

  /** minimize_formatting_string, from one position of the format on */
  function Minimize(fmt: string, inEscape: bool): (r: string)
    ensures |r| <= |fmt|
  {
    if fmt == "" then ""
    else if fmt[0] == '%' then
      if |fmt| > 1 && fmt[1] == '%' then Minimize(fmt[2..], inEscape)
      else "%" + Minimize(fmt[1..], true)
    else if !inEscape then Minimize(fmt[1..], false)
    else if Modifier(fmt[0]) then [fmt[0]] + Minimize(fmt[1..], true)
    else if Kind(fmt[0]).Some? then [Kind(fmt[0]).value] + Minimize(fmt[1..], false)
    else Minimize(fmt[1..], true)
  }

  method Put(buf: array<char>, i: nat, c: char, ghost done: string)
    requires i < buf.Length && buf[..i] == done
    modifies buf
    ensures buf[..i + 1] == done + [c] && buf[i + 1..] == old(buf[i + 1..])
  {
    buf[i] := c;
    assert buf[..i] == done;
  }

  /** What one turn of the loop puts out, and where it leaves the rest of the format. */
  lemma MinimizeTurn(fmt: string, p: nat, inEscape: bool)
    requires p < |fmt|
    ensures var c := fmt[p];
            Minimize(fmt[p..], inEscape) ==
              if c == '%' then
                if p + 1 < |fmt| && fmt[p + 1] == '%' then Minimize(fmt[p + 2..], inEscape)
                else [c] + Minimize(fmt[p + 1..], true)
              else if inEscape && Modifier(c) then [c] + Minimize(fmt[p + 1..], true)
              else if inEscape && Kind(c).Some? then [Kind(c).value] + Minimize(fmt[p + 1..], false)
              else Minimize(fmt[p + 1..], inEscape)
  {
    var s := fmt[p..];
    assert s[1..] == fmt[p + 1..];
    if p + 1 < |fmt| {
      assert s[2..] == fmt[p + 2..] && s[1] == fmt[p + 1];
    }
  }

  /** minimize_formatting_string into the first `buflen` bytes of some memory. The terminator goes
      behind the text wherever that ends, so it lies within those bytes exactly when the minimized
      form is shorter than they are; otherwise it is the byte after them that is written. */
  method MinimizeInto(buf: array?<char>, buflen: nat, fmt: Option<string>) returns (ok: bool)
    requires (fmt.Some? ==> NUL !in fmt.value) && (buf != null ==> buflen < buf.Length)
    modifies buf
    ensures ok <==> fmt.Some? && buf != null && buflen > 0
    ensures !ok && buf != null ==> buf[..] == old(buf[..])
    ensures ok ==>
              var text := Clip(Minimize(fmt.value, false), buflen);
              && buf[..|text|] == text && buf[|text|] == NUL && buf[|text| + 1..] == old(buf[|text| + 1..])
              && (|text| < buflen <==> |Minimize(fmt.value, false)| < buflen)
  {
    if fmt.None? || buf == null || buflen == 0 {
      return false;
    }
    FillMinimized(buf, buflen, fmt.value);
    return true;
  }

  /** The loop, and the terminator */
  method FillMinimized(buf: array<char>, buflen: nat, fmt: string)
    requires NUL !in fmt && 0 < buflen < buf.Length
    modifies buf
    ensures var text := Clip(Minimize(fmt, false), buflen);
            buf[..|text|] == text && buf[|text|] == NUL && buf[|text| + 1..] == old(buf[|text| + 1..])
  {
    ghost var m := Minimize(fmt, false);
    var p, i, inEscape := 0, 0, false;
    ghost var done := "";
    while p < |fmt| && i < buflen
      invariant p <= |fmt| && i == |done| <= buflen
      invariant buf[..i] == done && m == done + Minimize(fmt[p..], inEscape)
      invariant buf[i..] == old(buf[i..])
      decreases |fmt| - p
    {
      p, i, inEscape, done := Turn(buf, fmt, p, i, inEscape, done);
    }
    assert done == Clip(m, buflen);
    assert buf[i + 1..] == buf[i..][1..];
    buf[i] := NUL;
    assert buf[..i] == done;
  }

  /** One turn of the loop */
  method Turn(buf: array<char>, fmt: string, p0: nat, i0: nat, escape: bool, ghost done0: string)
    returns (p: nat, i: nat, inEscape: bool, ghost done: string)
    requires p0 < |fmt| && i0 < buf.Length && buf[..i0] == done0
    modifies buf
    ensures p0 < p <= |fmt| && i0 <= i <= i0 + 1 && i == |done| && buf[..i] == done
    ensures buf[i..] == old(buf[i..])
    ensures done + Minimize(fmt[p..], inEscape) == done0 + Minimize(fmt[p0..], escape)
  {
    p, i, inEscape, done := p0, i0, escape, done0;
    var c := fmt[p];
    MinimizeTurn(fmt, p, inEscape);
    if c == '%' {
      if p + 1 < |fmt| && fmt[p + 1] == '%' {
        p := p + 2;
        return;
      }
      inEscape := true;
      Put(buf, i, c, done);
      i, p, done := i + 1, p + 1, done + [c];
      return;
    }
    if inEscape {
      if Modifier(c) {
        Put(buf, i, c, done);
        i, done := i + 1, done + [c];
      } else if Kind(c).Some? {
        inEscape := false;
        Put(buf, i, Kind(c).value, done);
        i, done := i + 1, done + [Kind(c).value];
      }
    }
    p := p + 1;
  }

  /** The characters that can end a complete conversion in a minimized string. */
  predicate EndsConversion(c: char) {
    c in "*iufcspn"
  }

  /** Strips dangling characters that complete no conversion. */
  function Strip(s: string): (r: string)
    ensures r <= s
  {
    if s == "" || EndsConversion(s[|s| - 1]) then s else Strip(s[..|s| - 1])
  }

  /** A buffer sized like the original is large enough for the minimized string. */
  method Minimized(fmt: string) returns (m: string)
    requires NUL !in fmt
    ensures m == Minimize(fmt, false)
  {
    var buf := new char[|fmt| + 2];
    var ok := MinimizeInto(buf, |fmt| + 1, Some(fmt));
    MinimizeHasNoNul(fmt, false);
    CStringIsPrefix(buf[..], |Minimize(fmt, false)|);
    m := CString(buf[..]);
  }

  /** validate_formatting_string: -1 for a missing format, else 0 for equal, 1 for a sufficient
      beginning, -3 for neither; the buffers are always large enough, so never -2 */
  method ValidateFormat(dynamic: Option<string>, reference: Option<string>) returns (ret: int)
    requires (dynamic.Some? ==> NUL !in dynamic.value) && (reference.Some? ==> NUL !in reference.value)
    ensures ret == if dynamic.None? || reference.None? then -1 else Verdict(dynamic.value, reference.value)
    ensures ret == -1 <==> dynamic.None? || reference.None?
    ensures ret in {0, 1, -1, -3}
  {
    if dynamic.None? || reference.None? {
      return -1;
    }
    var d := Minimized(dynamic.value);
    var r := Minimized(reference.value);
    if d == r {
      return 0;
    }
    var lenD := |d|;
    assert d[..lenD] == d;
    while lenD > 0 && !EndsConversion(d[lenD - 1])
      invariant 0 <= lenD <= |d| && Strip(d) == Strip(d[..lenD])
    {
      lenD := lenD - 1;
      assert d[..lenD + 1][..lenD] == d[..lenD];
    }
    if d[..lenD] <= r {
      return 1;
    }
    return -3;
  }

  lemma {:induction false} MinimizeHasNoNul(fmt: string, inEscape: bool)
    requires NUL !in fmt
    ensures NUL !in Minimize(fmt, inEscape)
    decreases |fmt|
  {
    if fmt != "" {
      assert fmt[0] in fmt;
      if fmt[0] == '%' && |fmt| > 1 && fmt[1] == '%' {
        MinimizeHasNoNul(fmt[2..], inEscape);
      } else {
        MinimizeHasNoNul(fmt[1..], true);
        MinimizeHasNoNul(fmt[1..], false);
      }
    }
  }

  function Verdict(dynamic: string, reference: string): int {
    var d := Minimize(dynamic, false);
    var r := Minimize(reference, false);
    if d == r then 0 else if Strip(d) <= r then 1 else -3
  }

  // ----- what a format asks of the argument list -----

  /** A well-formed format is a sequence of these. */
  datatype Piece =
    | Literal(c: char)
    | Percent
    | Conversion(flags: string, conv: char)

  predicate WellFormed(p: Piece) {
    match p
    case Literal(c) => c != '%'
    case Percent => true
    case Conversion(flags, conv) =>
      Kind(conv).Some? && forall i :: 0 <= i < |flags| ==> flags[i] != '%' && Kind(flags[i]).None?
  }

  predicate AllWellFormed(ps: seq<Piece>) {
    forall p :: p in ps ==> WellFormed(p)
  }

  function Render(ps: seq<Piece>): string {
    if ps == [] then "" else RenderPiece(ps[0]) + Render(ps[1..])
  }

  function RenderPiece(p: Piece): string {
    match p
    case Literal(c) => [c]
    case Percent => "%%"
    case Conversion(flags, conv) => "%" + flags + [conv]
  }

  /** One conversion's demand: size modifiers and starred widths in order, then the basic type. */
  datatype Arg = Arg(mods: string, kind: char)

  function Mods(flags: string): string {
    if flags == "" then ""
    else if Modifier(flags[0]) then [flags[0]] + Mods(flags[1..])
    else Mods(flags[1..])
  }

  function Signature(ps: seq<Piece>): seq<Arg>
    requires AllWellFormed(ps)
  {
    if ps == [] then []
    else
      assert ps[0] in ps;
      Demand(ps[0]) + Signature(ps[1..])
  }

  function Demand(p: Piece): seq<Arg>
    requires WellFormed(p)
  {
    match p
    case Conversion(flags, conv) => [Arg(Mods(flags), Kind(conv).value)]
    case _ => []
  }

  predicate ArgOk(a: Arg) {
    a.kind in "iufcspn" && forall i :: 0 <= i < |a.mods| ==> Modifier(a.mods[i])
  }

  function Code(a: Arg): string {
    "%" + a.mods + [a.kind]
  }

  function Codes(sig: seq<Arg>): string {
    if sig == [] then "" else Code(sig[0]) + Codes(sig[1..])
  }

  lemma {:induction false} SignatureOk(ps: seq<Piece>)
    requires AllWellFormed(ps)
    ensures forall i :: 0 <= i < |Signature(ps)| ==> ArgOk(Signature(ps)[i])
  {
    if ps != [] {
      SignatureOk(ps[1..]);
      assert ps[0] in ps;
      if ps[0].Conversion? {
        ModsAreModifiers(ps[0].flags);
      }
    }
  }

  lemma {:induction false} ModsAreModifiers(flags: string)
    ensures forall i :: 0 <= i < |Mods(flags)| ==> Modifier(Mods(flags)[i])
  {
    if flags != "" {
      ModsAreModifiers(flags[1..]);
    }
  }

  lemma {:induction false} MinimizeInConversion(flags: string, conv: char, rest: string)
    requires WellFormed(Conversion(flags, conv))
    ensures Minimize(flags + [conv] + rest, true) == Mods(flags) + [Kind(conv).value] + Minimize(rest, false)
  {
    var fmt := flags + [conv] + rest;
    if flags == "" {
      assert fmt[0] == conv && fmt[1..] == rest;
    } else {
      assert fmt[0] == flags[0] && fmt[1..] == flags[1..] + [conv] + rest;
      MinimizeInConversion(flags[1..], conv, rest);
    }
  }

  lemma MinimizeConversion(flags: string, conv: char, rest: string)
    requires WellFormed(Conversion(flags, conv))
    ensures Minimize(RenderPiece(Conversion(flags, conv)) + rest, false) ==
            Codes(Demand(Conversion(flags, conv))) + Minimize(rest, false)
  {
    var fmt := RenderPiece(Conversion(flags, conv)) + rest;
    assert fmt[0] == '%' && fmt[1..] == flags + [conv] + rest;
    assert fmt[1] != '%' by { assert fmt[1] == if flags == "" then conv else flags[0]; }
    MinimizeInConversion(flags, conv, rest);
    assert Demand(Conversion(flags, conv))[1..] == [];
  }

  lemma MinimizePiece(p: Piece, rest: string)
    requires WellFormed(p)
    ensures Minimize(RenderPiece(p) + rest, false) == Codes(Demand(p)) + Minimize(rest, false)
  {
    var fmt := RenderPiece(p) + rest;
    match p
    case Literal(c) => assert fmt[0] == c && fmt[1..] == rest;
    case Percent => assert fmt[0] == '%' && fmt[1] == '%' && fmt[2..] == rest;
    case Conversion(flags, conv) => MinimizeConversion(flags, conv, rest);
  }

  lemma CodesPrepend(front: seq<Arg>, sig: seq<Arg>)
    requires |front| <= 1
    ensures Codes(front + sig) == Codes(front) + Codes(sig)
  {
    if front == [] {
      assert front + sig == sig;
    } else {
      assert (front + sig)[1..] == sig && front[1..] == [];
    }
  }

  /** Minimizing a well-formed format renders exactly its signature. */
  lemma {:induction false} MinimizeRendersSignature(ps: seq<Piece>)
    requires AllWellFormed(ps)
    ensures Minimize(Render(ps), false) == Codes(Signature(ps))
  {
    if ps != [] {
      assert ps[0] in ps;
      MinimizeRendersSignature(ps[1..]);
      MinimizePiece(ps[0], Render(ps[1..]));
      CodesPrepend(Demand(ps[0]), Signature(ps[1..]));
    }
  }

  /** Two codes of which neither text disagrees with the other are the same code: the conversion
      character ends a code, and no modifier is a conversion character. */
  lemma {:induction false} CodeUnique(a: Arg, b: Arg, s: string, t: string)
    requires ArgOk(a) && ArgOk(b)
    requires a.mods + [a.kind] + s <= b.mods + [b.kind] + t
    ensures a == b && s <= t
    decreases |a.mods|
  {
    var x, y := a.mods + [a.kind] + s, b.mods + [b.kind] + t;
    assert x[0] == if a.mods == "" then a.kind else a.mods[0];
    assert y[0] == if b.mods == "" then b.kind else b.mods[0];
    assert x[1..] <= y[1..] by {
      assert forall i :: 0 <= i < |x| ==> x[i] == y[i];
    }
    if a.mods != "" && b.mods != "" {
      var a', b' := Arg(a.mods[1..], a.kind), Arg(b.mods[1..], b.kind);
      assert x[1..] == a'.mods + [a.kind] + s && y[1..] == b'.mods + [b.kind] + t;
      CodeUnique(a', b', s, t);
      assert a.mods == [x[0]] + a'.mods && b.mods == [y[0]] + b'.mods;
    } else {
      assert a.mods == "" ==> x[1..] == s;
      assert b.mods == "" ==> y[1..] == t;
    }
  }

  /** Minimized strings are uniquely decodable: text prefix and signature prefix are the same. */
  lemma {:induction false} PrefixIffSignaturePrefix(a: seq<Arg>, b: seq<Arg>)
    requires forall i :: 0 <= i < |a| ==> ArgOk(a[i])
    requires forall i :: 0 <= i < |b| ==> ArgOk(b[i])
    ensures Codes(a) <= Codes(b) <==> a <= b
    decreases |a|
  {
    if a != [] && b != [] {
      PrefixIffSignaturePrefix(a[1..], b[1..]);
      CodePrefix(a[0], b[0], Codes(a[1..]), Codes(b[1..]));
      assert a == [a[0]] + a[1..] && b == [b[0]] + b[1..];
    }
  }

  lemma CodePrefix(a: Arg, b: Arg, s: string, t: string)
    requires ArgOk(a) && ArgOk(b)
    ensures Code(a) + s <= Code(b) + t <==> a == b && s <= t
  {
    var x, y := Code(a) + s, Code(b) + t;
    assert x[1..] == a.mods + [a.kind] + s;
    assert y[1..] == b.mods + [b.kind] + t;
    if x <= y {
      CodeUnique(a, b, s, t);
    }
  }

  lemma {:induction false} CodesEndConverted(sig: seq<Arg>)
    requires forall i :: 0 <= i < |sig| ==> ArgOk(sig[i])
    ensures Strip(Codes(sig)) == Codes(sig)
  {
    if sig != [] {
      CodesEndConverted(sig[1..]);
      var rest := Codes(sig[1..]);
      if rest == "" {
        assert Codes(sig) == Code(sig[0]);
      } else {
        assert Codes(sig)[|Codes(sig)| - 1] == rest[|rest| - 1];
      }
    }
  }

  /** On well-formed formats the verdict is about signatures alone: equal, proper beginning of the
      reference, or an error. */
  lemma VerdictComparesSignatures(ds: seq<Piece>, rs: seq<Piece>)
    requires AllWellFormed(ds) && AllWellFormed(rs)
    ensures var v := Verdict(Render(ds), Render(rs));
            && (v == 0 <==> Signature(ds) == Signature(rs))
            && (v == 1 <==> Signature(ds) < Signature(rs))
            && (v < 0 <==> !(Signature(ds) <= Signature(rs)))
  {
    var a, b := Signature(ds), Signature(rs);
    SignatureOk(ds);
    SignatureOk(rs);
    MinimizeRendersSignature(ds);
    MinimizeRendersSignature(rs);
    PrefixIffSignaturePrefix(a, b);
    PrefixIffSignaturePrefix(b, a);
    CodesEndConverted(a);
    assert Codes(a) == Codes(b) <==> Codes(a) <= Codes(b) && Codes(b) <= Codes(a);
    assert a == b <==> a <= b && b <= a;
  }
}
