/** botmsg.c, botcmd.c, misc.c: the text in which bots talk to each other. */
module Wire {

  // ---- Numbers to the base 64, with the digits A-Z a-z 0-9 [ ].

  // The table base64to; characters that are no digits count as 0.
  function DigitValue(c: char): (v: nat)
    ensures v < 64
  {
    if 'A' <= c <= 'Z' then c as int - 'A' as int
    else if 'a' <= c <= 'z' then c as int - 'a' as int + 26
    else if '0' <= c <= '9' then c as int - '0' as int + 52
    else if c == '[' then 62
    else if c == ']' then 63
    else 0
  }

  // The table tobase64array.
  function Digit(v: nat): (c: char)
    requires v < 64
    ensures DigitValue(c) == v && ' ' < c < '\U{7F}'
  {
    if v < 26 then (v + 'A' as int) as char
    else if v < 52 then (v - 26 + 'a' as int) as char
    else if v < 62 then (v - 52 + '0' as int) as char
    else if v == 62 then '['
    else ']'
  }

  function ToBase64(v: nat): (s: string) {
    if v < 64 then [Digit(v)] else ToBase64(v / 64) + [Digit(v % 64)]
  }

  // What a C int holds after an overflow: the 32 low bits, as a signed number.
  function Wrap32(x: int): int {
    var low := x % 0x1_0000_0000;
    if low < 0x8000_0000 then low else low - 0x1_0000_0000
  }

  function FromBase64(s: string): int {
    if s == "" then 0 else Wrap32(64 * FromBase64(s[..|s| - 1]) + DigitValue(s[|s| - 1]))
  }

  lemma FromBase64Snoc(s: string, c: char)
    ensures FromBase64(s + [c]) == Wrap32(64 * FromBase64(s) + DigitValue(c))
  {
    assert (s + [c])[..|s|] == s;
  }

  lemma WrapSmall(x: int)
    requires 0 <= x < 0x8000_0000
    ensures Wrap32(x) == x
  {
  }

  lemma {:induction false} FromToBase64(v: nat)
    requires v < 0x1_0000_0000
    ensures FromBase64(ToBase64(v)) == Wrap32(v)
  {
    if v < 64 {
      FromBase64Snoc("", Digit(v));
      assert "" + [Digit(v)] == ToBase64(v);
    } else {
      var high, low := v / 64, v % 64;
      FromToBase64(high);
      WrapSmall(high);
      FromBase64Snoc(ToBase64(high), Digit(low));
      assert ToBase64(v) == ToBase64(high) + [Digit(low)] && v == 64 * high + low;
    }
  }

  /** Any int survives the trip through the wire as an unsigned base 64 number. */
  lemma Base64RoundTrip(v: int)
    requires -0x8000_0000 <= v < 0x8000_0000
    ensures FromBase64(ToBase64(v % 0x1_0000_0000)) == v
  {
    var u := if v < 0 then v + 0x1_0000_0000 else v;
    assert v % 0x1_0000_0000 == u && u % 0x1_0000_0000 == u;
    FromToBase64(u);
  }

  lemma {:induction false} Base64Text(v: nat, width: nat)
    requires width >= 1 && v < Pow64(width)
    ensures 1 <= |ToBase64(v)| <= width
    ensures forall i :: 0 <= i < |ToBase64(v)| ==> ' ' < ToBase64(v)[i] < '\U{7F}'
  {
    if v >= 64 {
      assert width > 1 by { assert Pow64(1) == 64 * Pow64(0); }
      Base64Text(v / 64, width - 1);
    }
  }

  function Pow64(n: nat): nat {
    if n == 0 then 1 else 64 * Pow64(n - 1)
  }

  lemma SixDigits()
    ensures 0x1_0000_0000 <= Pow64(6)
  {
    assert Pow64(3) == 262144;
  }

  /** int_to_base64(): fills a buffer of 12 from its end. */
  method IntToBase64(val: nat) returns (s: string)
    requires val < 0x1_0000_0000
    ensures s == ToBase64(val)
  {
    var buf := new char[12];
    if val == 0 {
      buf[10] := 'A';
      s := buf[10..11];
      return;
    }
    var i: nat, left: nat := 11, val;
    SixDigits();
    while left != 0
      invariant 5 <= i <= 11 && left < Pow64(i - 5)
      invariant ToBase64(val) == ToPut(left) + buf[i..11]
      decreases left
    {
      DigitTaken(left, i - 5, buf[i..11]);
      i := i - 1;
      left := PutDigit(buf, i, left);
    }
    s := buf[i..11];
  }

  // The digits that are still to be put in front.
  function ToPut(left: nat): string {
    if left == 0 then "" else ToBase64(left)
  }

  method PutDigit(buf: array<char>, i: nat, left: nat) returns (rest: nat)
    requires i < 11 <= buf.Length
    modifies buf
    ensures rest == left / 64 && buf[i..11] == [Digit(left % 64)] + old(buf[i + 1..11])
  {
    buf[i] := Digit(left % 64);
    rest := left / 64;
  }

  // The last digit goes in front of those behind it.
  lemma DigitTaken(left: nat, room: nat, tail: string)
    requires left != 0 && left < Pow64(room)
    ensures room > 0 && left / 64 < Pow64(room - 1)
    ensures ToPut(left) + tail == ToPut(left / 64) + ([Digit(left % 64)] + tail)
  {
    assert Pow64(0) == 1;
    if left < 64 {
      assert "" + ([Digit(left)] + tail) == [Digit(left)] + tail;
    } else {
      assert ToBase64(left) == ToBase64(left / 64) + [Digit(left % 64)];
    }
  }

  lemma WrapInside(x: int, d: int)
    ensures Wrap32(Wrap32(x) + d) == Wrap32(x + d)
  {
    var k := if x % 0x1_0000_0000 < 0x8000_0000 then x / 0x1_0000_0000 else x / 0x1_0000_0000 + 1;
    assert Wrap32(x) == x - k * 0x1_0000_0000;
    assert (x + d - k * 0x1_0000_0000) % 0x1_0000_0000 == (x + d) % 0x1_0000_0000;
  }

  /** base64_to_int() */
  method Base64ToInt(buf: string) returns (i: int)
    ensures i == FromBase64(buf)
  {
    i := 0;
    for p := 0 to |buf|
      invariant i == FromBase64(buf[..p])
    {
      assert buf[..p + 1][..p] == buf[..p];
      WrapInside(64 * i, DigitValue(buf[p]));
      i := Wrap32(64 * i);
      i := Wrap32(i + DigitValue(buf[p]));
    }
    assert buf[..|buf|] == buf;
  }

  // ---- Words

  datatype Words = Words(first: string, rest: string)

  function SkipBlanks(s: string): string {
    if s != "" && s[0] == ' ' then SkipBlanks(s[1..]) else s
  }

  function WordEnd(s: string): (n: nat)
    ensures n <= |s| && (forall i :: 0 <= i < n ==> s[i] != ' ') && (n < |s| ==> s[n] == ' ')
  {
    if s == "" || s[0] == ' ' then 0
    else 1 + WordEnd(s[1..])
  }

  // newsplit(): the first word, and what follows it and one blank.
  function NewSplit(s: string): (w: Words)
    ensures ' ' !in w.first
    ensures w.first == "" ==> w.rest == ""
  {
    var o := SkipBlanks(s);
    var n := WordEnd(o);
    SkipBlanksSkips(s);
    Words(o[..n], if n < |o| then o[n + 1..] else "")
  }

  lemma {:induction false} SkipBlanksSkips(s: string)
    ensures SkipBlanks(s) == "" || SkipBlanks(s)[0] != ' '
  {
    if s != "" && s[0] == ' ' {
      SkipBlanksSkips(s[1..]);
    }
  }

  lemma WordFirst(word: string, rest: string)
    requires word != "" && ' ' !in word
    ensures NewSplit(word + " " + rest) == Words(word, rest)
    ensures NewSplit(word) == Words(word, "")
  {
    var s := word + " " + rest;
    assert s[0] == word[0] && word[0] != ' ';
    assert s[|word|] == ' ' && forall i :: 0 <= i < |word| ==> s[i] == word[i];
    assert s[..|word|] == word && s[|word| + 1..] == rest && word[..|word|] == word;
  }

  lemma {:induction false} BlanksSkipped(blanks: string, s: string)
    requires forall i :: 0 <= i < |blanks| ==> blanks[i] == ' '
    ensures NewSplit(blanks + s) == NewSplit(s)
  {
    if blanks == "" {
      assert blanks + s == s;
    } else {
      assert (blanks + s)[1..] == blanks[1..] + s;
      BlanksSkipped(blanks[1..], s);
      SkipOne(blanks[1..] + s, blanks + s);
    }
  }

  lemma SkipOne(s: string, more: string)
    requires more != "" && more[0] == ' ' && more[1..] == s
    ensures NewSplit(more) == NewSplit(s)
  {
  }

  /** The digits are the capitals, the letters, the figures and two brackets, in order. */
  lemma DigitsAre(v: nat)
    requires v < 63
    ensures Digit(0) == 'A' && Digit(26) == 'a' && Digit(52) == '0' && Digit(62) == '[' && Digit(63) == ']'
    ensures Digit(v + 1) in "a0[]" || Digit(v + 1) as int == Digit(v) as int + 1
  {
  }

  method Split(s: string) returns (w: Words)
    ensures w == NewSplit(s)
  {
    var o := 0;
    assert s[0..] == s;
    while o < |s| && s[o] == ' '
      invariant o <= |s| && SkipBlanks(s[o..]) == SkipBlanks(s)
    {
      assert s[o..][1..] == s[o + 1..];
      o := o + 1;
    }
    var r := o;
    while o < |s| && s[o] != ' '
      invariant r <= o <= |s| && WordEnd(s[r..]) == o - r + WordEnd(s[o..])
    {
      assert s[o..][1..] == s[o + 1..];
      o := o + 1;
    }
    assert s[r..][..o - r] == s[r..o];
    if o < |s| {
      assert s[r..][o - r + 1..] == s[o + 1..];
    }
    return Words(s[r..o], if o < |s| then s[o + 1..] else "");
  }

  // ---- Lines

  datatype Arg = Text(s: string) | Letter(c: char) | Number(i: int)

  // Space in the buffers lines are written to, less the terminator.
  const LINE: nat := 1023

  function ToBase10(v: nat): string {
    if v < 10 then [('0' as int + v) as char] else ToBase10(v / 10) + [('0' as int + v % 10) as char]
  }

  const CONVERSIONS := "scdiuD"

  predicate ArgFits(c: char, arg: Arg) {
    if c == 's' then arg.Text? else if c == 'c' then arg.Letter? else arg.Number?
  }

  // The arguments are there, and of the kind the format asks for.
  predicate ArgsFit(format: string, args: seq<Arg>) {
    if format == "" then true
    else if format[0] != '%' then ArgsFit(format[1..], args)
    else if |format| == 1 then true
    else if format[1] in CONVERSIONS then args != [] && ArgFits(format[1], args[0]) && ArgsFit(format[2..], args[1..])
    else if format[1] == '%' then ArgsFit(format[2..], args)
    else ArgsFit(format[1..], args)
  }

  // The text of one argument under a conversion.
  function ArgText(c: char, arg: Arg): string {
    match arg
    case Text(s) => s
    case Letter(l) => [l]
    case Number(i) =>
      if c == 'D' then ToBase64(i % 0x1_0000_0000)
      else if c == 'u' then ToBase10(i % 0x1_0000_0000)
      else Decimal10(i)
  }

  // What a format with its arguments stands for, without regard to space.
  function Render(format: string, args: seq<Arg>): string
    requires ArgsFit(format, args)
  {
    if format == "" then ""
    else if format[0] != '%' then [format[0]] + Render(format[1..], args)
    else if |format| == 1 then ""
    else if format[1] in CONVERSIONS then ArgText(format[1], args[0]) + Render(format[2..], args[1..])
    else if format[1] == '%' then "%" + Render(format[2..], args)
    else Render(format[1..], args)
  }

  function Decimal10(i: int): string {
    if i < 0 then "-" + ToBase10(-i) else ToBase10(i)
  }

  function Cut(s: string): string {
    if |s| <= LINE then s else s[..LINE]
  }

  // Copies s behind buf as far as there is space.
  method Append(buf: string, s: string) returns (r: string)
    requires |buf| <= LINE
    ensures r == Cut(buf + s)
  {
    r := buf;
    var i := 0;
    while i < |s| && |r| < LINE
      invariant 0 <= i <= |s| && |r| <= LINE
      invariant r == buf + s[..i]
    {
      assert s[..i + 1] == s[..i] + [s[i]];
      r := r + [s[i]];
      i := i + 1;
    }
    if i == |s| {
      assert s[..i] == s;
    } else {
      assert buf + s == r + s[i..];
    }
  }

  lemma CutMore(a: string, b: string, c: string)
    ensures Cut(Cut(a + b) + c) == Cut(a + (b + c))
  {
    if |a + b| > LINE {
      assert (Cut(a + b) + c)[..LINE] == (a + (b + c))[..LINE];
    } else {
      assert a + b + c == a + (b + c);
    }
  }

  /** simple_sprintf() */
  method Sprintf(format: string, args: seq<Arg>) returns (buf: string)
    requires ArgsFit(format, args)
    ensures buf == Cut(Render(format, args))
  {
    buf := "";
    var f, a := format, args;
    ghost var whole := Render(format, args);
    while f != "" && |buf| < LINE
      invariant ArgsFit(f, a) && |buf| <= LINE
      invariant Cut(buf + Render(f, a)) == Cut(whole)
      decreases |f|
    {
      if f[0] != '%' {
        CutMore(buf, [f[0]], Render(f[1..], a));
        buf := buf + [f[0]];
        f := f[1..];
      } else if |f| == 1 {
        f := "";
      } else if f[1] in CONVERSIONS {
        CutMore(buf, ArgText(f[1], a[0]), Render(f[2..], a[1..]));
        buf := Append(buf, ArgText(f[1], a[0]));
        f, a := f[2..], a[1..];
      } else if f[1] == '%' {
        CutMore(buf, "%", Render(f[2..], a));
        buf := buf + "%";
        f := f[2..];
      } else {
        f := f[1..];
      }
    }
  }

  /** A line that announces a bot, as sent to a new neighbour. */
  function LinkLine(name: string, uplink: string, share: char, ver: int): string {
    "n " + name + " " + uplink + " " + [share] + ToBase64(ver % 0x1_0000_0000) + "\n"
  }

  lemma RenderPlain(c: char, f: string, a: seq<Arg>)
    requires c != '%' && ArgsFit(f, a)
    ensures ArgsFit([c] + f, a) && Render([c] + f, a) == [c] + Render(f, a)
  {
    assert ([c] + f)[1..] == f;
  }

  lemma RenderArg(c: char, f: string, arg: Arg, a: seq<Arg>)
    requires ArgsFit(f, a)
    requires c in CONVERSIONS && ArgFits(c, arg)
    ensures ArgsFit(['%', c] + f, [arg] + a)
    ensures Render(['%', c] + f, [arg] + a) == ArgText(c, arg) + Render(f, a)
  {
    assert (['%', c] + f)[2..] == f && ([arg] + a)[1..] == a;
  }

  // The format of the lines that announce a bot.
  const LINK_FORMAT := "n %s %s %c%D\n"

  lemma WordRendered(word: string, f: string, a: seq<Arg>)
    requires ArgsFit(f, a)
    ensures ArgsFit(" %s" + f, [Text(word)] + a)
    ensures Render(" %s" + f, [Text(word)] + a) == " " + word + Render(f, a)
  {
    RenderArg('s', f, Text(word), a);
    RenderPlain(' ', "%s" + f, [Text(word)] + a);
    assert " %s" + f == " " + ("%s" + f);
  }

  lemma ShareRendered(share: char, ver: int, f: string, end: string)
    requires end == "\n" && f == " %c" + ("%D" + end)
    ensures ArgsFit(f, [Letter(share), Number(ver)])
    ensures Render(f, [Letter(share), Number(ver)]) == " " + [share] + ToBase64(ver % 0x1_0000_0000) + "\n"
  {
    var digits := ToBase64(ver % 0x1_0000_0000);
    assert end[1..] == "";
    assert Render(end, []) == [end[0]] + Render("", []);
    assert Render(end, []) == "\n";
    RenderArg('D', end, Number(ver), []);
    assert [Number(ver)] + [] == [Number(ver)];
    assert Render("%D" + end, [Number(ver)]) == digits + "\n";
    RenderArg('c', "%D" + end, Letter(share), [Number(ver)]);
    assert Render("%c" + ("%D" + end), [Letter(share)] + [Number(ver)]) == [share] + (digits + "\n");
    RenderPlain(' ', "%c" + ("%D" + end), [Letter(share)] + [Number(ver)]);
    assert f == " " + ("%c" + ("%D" + end));
    assert [Letter(share), Number(ver)] == [Letter(share)] + [Number(ver)];
    assert " " + ([share] + (digits + "\n")) == " " + [share] + digits + "\n";
  }

  lemma NamesRendered(name: string, uplink: string, f: string, a: seq<Arg>)
    requires ArgsFit(f, a)
    ensures ArgsFit("n" + (" %s" + (" %s" + f)), [Text(name)] + ([Text(uplink)] + a))
    ensures Render("n" + (" %s" + (" %s" + f)), [Text(name)] + ([Text(uplink)] + a)) ==
            "n" + (" " + name + (" " + uplink + Render(f, a)))
  {
    WordRendered(uplink, f, a);
    WordRendered(name, " %s" + f, [Text(uplink)] + a);
    RenderPlain('n', " %s" + (" %s" + f), [Text(name)] + ([Text(uplink)] + a));
  }

  lemma LinkLineRendered(name: string, uplink: string, share: char, ver: int)
    ensures var args := [Text(name), Text(uplink), Letter(share), Number(ver)];
            ArgsFit(LINK_FORMAT, args) && Render(LINK_FORMAT, args) == LinkLine(name, uplink, share, ver)
  {
    var end: string :| end == "\n";
    var f := " %c" + ("%D" + end);
    var digits := ToBase64(ver % 0x1_0000_0000);
    ShareRendered(share, ver, f, end);
    NamesRendered(name, uplink, f, [Letter(share), Number(ver)]);
    assert LINK_FORMAT == "n" + (" %s" + (" %s" + f));
    assert [Text(name), Text(uplink), Letter(share), Number(ver)] == [Text(name)] + ([Text(uplink)] + [Letter(share), Number(ver)]);
    assert "n" + (" " + name + (" " + uplink + (" " + [share] + digits + "\n"))) == LinkLine(name, uplink, share, ver);
  }
}
