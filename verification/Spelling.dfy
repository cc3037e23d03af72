/** Numbers as text, and back. */
module Spelling {
  import opened Chars
  import opened Wire

  lemma DecimalMore(s: string, c: char)
    requires (forall i :: 0 <= i < |s| ==> IsDigit(s[i])) && IsDigit(c)
    ensures forall i :: 0 <= i < |s + [c]| ==> IsDigit((s + [c])[i])
    ensures Decimal(s + [c]) == 10 * Decimal(s) + (c as int - '0' as int)
  {
    assert (s + [c])[..|s|] == s;
  }

  /** A number read from its own text is that number. */
  lemma {:induction false} DecimalBack(v: nat)
    ensures AllDigits(ToBase10(v)) && Decimal(ToBase10(v)) == v
  {
    var c := ('0' as int + v % 10) as char;
    if v < 10 {
      DecimalMore("", c);
      assert "" + [c] == ToBase10(v);
    } else {
      DecimalBack(v / 10);
      DecimalMore(ToBase10(v / 10), c);
    }
  }

  /** Some numbers, as they are written. */
  lemma Written()
    ensures ToBase10(0) == "0" && ToBase10(9) == "9" && ToBase10(24) == "24" && ToBase10(128) == "128"
  {
    assert ToBase10(1) == "1" && ToBase10(2) == "2" && ToBase10(12) == "12";
  }

  /** A number with a sign: its digits, with a minus in front when it is below zero. */
  lemma SignedBack(i: int) returns (digits: string)
    ensures AllDigits(digits) && Decimal10(i) == if i < 0 then "-" + digits else digits
    ensures Decimal(digits) == if i < 0 then 0 - i else i
  {
    digits := ToBase10(if i < 0 then 0 - i else i);
    DecimalBack(if i < 0 then 0 - i else i);
  }

  // ---- Formats

  /** Text without conversions stands for itself. */
  lemma {:induction false} PlainFormat(t: string, rest: string, args: seq<Arg>)
    requires '%' !in t && ArgsFit(rest, args)
    ensures ArgsFit(t + rest, args) && Render(t + rest, args) == t + Render(rest, args)
  {
    if t == "" {
      assert t + rest == rest;
    } else {
      assert (t + rest)[1..] == t[1..] + rest;
      PlainFormat(t[1..], rest, args);
    }
  }

  /** A doubled percent sign is one. */
  lemma Percent(rest: string, args: seq<Arg>)
    requires ArgsFit(rest, args)
    ensures ArgsFit("%%" + rest, args) && Render("%%" + rest, args) == "%" + Render(rest, args)
  {
    assert ("%%" + rest)[2..] == rest && ("%%" + rest)[1] == '%';
  }

  /** A conversion stands for the next argument: a text, a character, a number with its sign, one without,
      or one to the base 64. */
  lemma Conversion(c: char, arg: Arg, rest: string, args: seq<Arg>)
    requires c in "scdiuD" && ArgFits(c, arg) && ArgsFit(rest, args)
    ensures var format, all := ['%', c] + rest, [arg] + args;
            && ArgsFit(format, all)
            && (arg.Text? ==> Render(format, all) == arg.s + Render(rest, args))
            && (arg.Letter? ==> Render(format, all) == [arg.c] + Render(rest, args))
            && (c == 'd' || c == 'i' ==> Render(format, all) == Decimal10(arg.i) + Render(rest, args))
            && (c == 'u' ==> Render(format, all) == ToBase10(arg.i % 0x1_0000_0000) + Render(rest, args))
            && (c == 'D' ==> Render(format, all) == ToBase64(arg.i % 0x1_0000_0000) + Render(rest, args))
  {
    var format, all := ['%', c] + rest, [arg] + args;
    assert format[2..] == rest && format[1] == c && all[1..] == args && all[0] == arg;
  }

  /** A percent sign before anything else is dropped. */
  lemma Stray(c: char, rest: string, args: seq<Arg>)
    requires c !in "scdiuD%" && ArgsFit([c] + rest, args)
    ensures ArgsFit(['%', c] + rest, args) && Render(['%', c] + rest, args) == Render([c] + rest, args)
  {
    assert (['%', c] + rest)[1..] == [c] + rest && (['%', c] + rest)[1] == c;
  }
}
