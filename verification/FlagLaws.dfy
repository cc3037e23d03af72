/** flags.c: what a text of flags says, character by character, and how a mask is spelt. */
module FlagLaws {
  import opened Options
  import opened Flags

  predicate Sep(c: char) {
    c == '|' || c == '&'
  }

  predicate OnePart(s: string) {
    forall i :: 0 <= i < |s| ==> !Sep(s[i])
  }

  // The last sign before a place is a '-'.
  predicate Away(s: string, p: nat)
    requires p <= |s|
  {
    exists q :: 0 <= q < p && s[q] == '-' && forall r :: q < r < p ==> s[r] != '+'
  }

  // The character stands in the text on that side; without a record of what is taken away, there is
  // one side.
  predicate Said(s: string, c: char, away: bool, minus: bool) {
    exists p :: 0 <= p < |s| && s[p] == c && (minus && Away(s, p)) == away
  }

  function Plus(c: char, i: nat): char
    requires c as int + i < 128
  {
    (c as int + i) as char
  }

  // The flags that one part of a text adds to a record: letters and capitals or digits for global and
  // channel flags, letters up to 'u' and digits for bots.
  ghost predicate Tells(m: Masks, old_: Masks, mode: Mode, s: string, away: bool, minus: bool) {
    && (forall i: nat :: i in m.glob <==> i in old_.glob || (mode == Global && i < 26 && Said(s, Plus('a', i), away, minus)))
    && (forall i: nat :: i in m.udefGlob <==> i in old_.udefGlob || (mode == Global && Large(s, i, away, minus)))
    && (forall i: nat :: i in m.chan <==> i in old_.chan || (mode == Channel && i < 26 && Said(s, Plus('a', i), away, minus)))
    && (forall i: nat :: i in m.udefChan <==> i in old_.udefChan || (mode == Channel && Large(s, i, away, minus)))
    && (forall i: nat :: i in m.bot <==> i in old_.bot || (mode == Bots && OfBot(s, i, away, minus)))
  }

  predicate Large(s: string, i: nat, away: bool, minus: bool) {
    (i < 26 && Said(s, Plus('A', i), away, minus)) || (i < 10 && Said(s, Plus('0', i), away, minus))
  }

  predicate OfBot(s: string, i: nat, away: bool, minus: bool) {
    (i < 21 && Said(s, Plus('a', i), away, minus)) || (21 <= i < 31 && Said(s, Plus('0', i - 21), away, minus))
  }

  // ---- One character more

  lemma AwayMore(s: string, x: char, p: nat)
    requires p <= |s|
    ensures Away(s + [x], p) <==> Away(s, p)
  {
    assert forall q :: 0 <= q < p ==> (s + [x])[q] == s[q];
  }

  lemma AwayAfter(s: string, x: char)
    ensures Away(s + [x], |s| + 1) <==> x == '-' || (x != '+' && Away(s, |s|))
  {
    var t := s + [x];
    assert t[|s|] == x && forall q :: 0 <= q < |s| ==> t[q] == s[q];
    if Away(t, |s| + 1) {
      var q :| 0 <= q < |s| + 1 && t[q] == '-' && forall r :: q < r < |s| + 1 ==> t[r] != '+';
      assert q < |s| ==> s[q] == '-' && forall r :: q < r < |s| ==> s[r] != '+';
    }
    if x != '+' && Away(s, |s|) {
      var q :| 0 <= q < |s| && s[q] == '-' && forall r :: q < r < |s| ==> s[r] != '+';
      assert t[q] == '-' && forall r :: q < r < |s| + 1 ==> t[r] != '+';
    }
    if x == '-' {
      assert t[|s|] == '-';
    }
  }

  lemma SaidMore(s: string, x: char, c: char, away: bool, minus: bool)
    ensures Said(s + [x], c, away, minus) <==>
            Said(s, c, away, minus) || (x == c && (minus && Away(s, |s|)) == away)
  {
    var t := s + [x];
    assert t[|s|] == x && forall q :: 0 <= q < |s| ==> t[q] == s[q];
    AwayMore(s, x, |s|);
    if Said(t, c, away, minus) {
      var p :| 0 <= p < |t| && t[p] == c && (minus && Away(t, p)) == away;
      if p < |s| {
        AwayMore(s, x, p);
      }
    }
    if Said(s, c, away, minus) {
      var p :| 0 <= p < |s| && s[p] == c && (minus && Away(s, p)) == away;
      AwayMore(s, x, p);
      assert t[p] == c;
    }
  }

  // What one character sets.
  lemma SetIs(m: Masks, mode: Mode, c: char)
    ensures var n := Set(m, mode, c);
            && (forall i: nat :: i in n.glob <==> i in m.glob || (mode == Global && i < 26 && c == Plus('a', i)))
            && (forall i: nat :: i in n.udefGlob <==> i in m.udefGlob || (mode == Global && LargeIs(c, i)))
            && (forall i: nat :: i in n.chan <==> i in m.chan || (mode == Channel && i < 26 && c == Plus('a', i)))
            && (forall i: nat :: i in n.udefChan <==> i in m.udefChan || (mode == Channel && LargeIs(c, i)))
            && (forall i: nat :: i in n.bot <==> i in m.bot || (mode == Bots && OfBotIs(c, i)))
  {
  }

  predicate LargeIs(c: char, i: nat) {
    (i < 26 && c == Plus('A', i)) || (i < 10 && c == Plus('0', i))
  }

  predicate OfBotIs(c: char, i: nat) {
    (i < 21 && c == Plus('a', i)) || (21 <= i < 31 && c == Plus('0', i - 21))
  }

  // The side of a character that goes there.
  lemma TellsMore(m: Masks, old_: Masks, mode: Mode, s: string, x: char, away: bool, minus: bool)
    requires Tells(m, old_, mode, s, away, minus) && (minus && Away(s, |s|)) == away
    ensures Tells(Set(m, mode, x), old_, mode, s + [x], away, minus)
  {
    SetIs(m, mode, x);
    forall c: char ensures Said(s + [x], c, away, minus) <==> Said(s, c, away, minus) || x == c {
      SaidMore(s, x, c, away, minus);
    }
  }

  // The side of a character that does not go there.
  lemma TellsSame(m: Masks, old_: Masks, mode: Mode, s: string, x: char, away: bool, minus: bool)
    requires Tells(m, old_, mode, s, away, minus) && (minus && Away(s, |s|)) != away
    ensures Tells(m, old_, mode, s + [x], away, minus)
  {
    forall c: char ensures Said(s + [x], c, away, minus) <==> Said(s, c, away, minus) {
      SaidMore(s, x, c, away, minus);
    }
  }

  // A sign sets nothing.
  lemma TellsSign(m: Masks, old_: Masks, mode: Mode, s: string, x: char, away: bool, minus: bool)
    requires Tells(m, old_, mode, s, away, minus) && (x == '+' || x == '-')
    ensures Tells(m, old_, mode, s + [x], away, minus)
  {
    forall c: char | c != x ensures Said(s + [x], c, away, minus) <==> Said(s, c, away, minus) {
      SaidMore(s, x, c, away, minus);
    }
  }

  /** What a part of a text says: each character sets its flag on the side of the last sign before it. */
  lemma {:induction false} SignedText(r: Reader, s: string, minus: bool)
    requires !r.toMinus && OnePart(s)
    ensures var r' := ReadAll(r, s, minus);
            && r'.mode == r.mode && r'.and_ == r.and_ && r'.toMinus == (minus && Away(s, |s|))
            && Tells(r'.plus, r.plus, r.mode, s, false, minus) && Tells(r'.minus, r.minus, r.mode, s, true, minus)
  {
    if s != "" {
      var front, x := s[..|s| - 1], s[|s| - 1];
      assert s == front + [x];
      SignedText(r, front, minus);
      NextRead(r, front, x, minus);
    }
  }

  lemma OneMore(r: Reader, s: string, x: char, minus: bool)
    ensures ReadAll(r, s + [x], minus) == Read(ReadAll(r, s, minus), x, minus)
  {
    ReadJoin(r, s, [x], minus);
    assert [x][1..] == "";
  }

  lemma NextRead(r: Reader, s: string, x: char, minus: bool)
    requires !Sep(x)
    requires var r' := ReadAll(r, s, minus);
             && r'.mode == r.mode && r'.and_ == r.and_ && r'.toMinus == (minus && Away(s, |s|))
             && Tells(r'.plus, r.plus, r.mode, s, false, minus) && Tells(r'.minus, r.minus, r.mode, s, true, minus)
    ensures var r' := ReadAll(r, s + [x], minus);
            && r'.mode == r.mode && r'.and_ == r.and_ && r'.toMinus == (minus && Away(s + [x], |s| + 1))
            && Tells(r'.plus, r.plus, r.mode, s + [x], false, minus) && Tells(r'.minus, r.minus, r.mode, s + [x], true, minus)
  {
    var r' := ReadAll(r, s, minus);
    OneMore(r, s, x, minus);
    AwayAfter(s, x);
    if x == '+' || x == '-' {
      TellsSign(r'.plus, r.plus, r.mode, s, x, false, minus);
      TellsSign(r'.minus, r.minus, r.mode, s, x, true, minus);
    } else if r'.toMinus {
      TellsSame(r'.plus, r.plus, r.mode, s, x, false, minus);
      TellsMore(r'.minus, r.minus, r.mode, s, x, true, minus);
    } else {
      TellsMore(r'.plus, r.plus, r.mode, s, x, false, minus);
      TellsSame(r'.minus, r.minus, r.mode, s, x, true, minus);
    }
  }

  /** A separator begins a new part, on the plus side again: the part after global flags is about channel
      flags, the one after channel flags about bots, and the one after those about channel flags. Only the
      first one after global flags says how the parts are joined. */
  lemma NextPart(r: Reader, s: string, sep: char, more: string, minus: bool)
    requires !r.toMinus && OnePart(s) && Sep(sep) && OnePart(more)
    ensures var r1, r2 := ReadAll(r, s, minus), ReadAll(r, s + ([sep] + more), minus);
            var mode := if r.mode == Channel then Bots else Channel;
            && Tells(r1.plus, r.plus, r.mode, s, false, minus) && Tells(r1.minus, r.minus, r.mode, s, true, minus)
            && r2.mode == mode && r2.and_ == (if r.mode == Global then sep == '&' else r.and_)
            && Tells(r2.plus, r1.plus, mode, more, false, minus) && Tells(r2.minus, r1.minus, mode, more, true, minus)
  {
    var r1 := ReadAll(r, s, minus);
    SignedText(r, s, minus);
    ReadJoin(r, s, [sep] + more, minus);
    ReadOne(r1, sep, more, minus);
    SignedText(Read(r1, sep, minus), more, minus);
  }

  // ---- Spelling

  /** A mask is spelt with a character for each bit that is set, in ascending order. */
  lemma {:induction false} Spelt(m: Mask, i: nat, n: nat, first: char)
    requires i <= n && first as int + n - i <= 128
    ensures var s := Letters(m, i, n, first);
            && (forall p, q :: 0 <= p < q < |s| ==> s[p] < s[q])
            && (forall p :: 0 <= p < |s| ==> first <= s[p] && (s[p] as int - first as int) < n - i)
            && (forall b: nat :: i <= b < n ==> (b in m <==> Plus(first, b - i) in s))
    decreases n - i
  {
    if i < n {
      var next := (first as int + 1) as char;
      var rest := Letters(m, i + 1, n, next);
      Spelt(m, i + 1, n, next);
      forall b: nat | i < b < n ensures b in m <==> Plus(first, b - i) in rest {
        assert Plus(first, b - i) == Plus(next, b - i - 1);
      }
      assert first !in rest;
    }
  }

  lemma EachBit(m: Mask, n: nat, first: char)
    requires first as int + n <= 128
    ensures forall b: nat :: b < n ==> (b in m <==> Plus(first, b) in Letters(m, 0, n, first))
    ensures forall p, q :: 0 <= p < q < |Letters(m, 0, n, first)| ==> Letters(m, 0, n, first)[p] < Letters(m, 0, n, first)[q]
  {
    Spelt(m, 0, n, first);
    forall b: nat | b < n ensures b in m <==> Plus(first, b) in Letters(m, 0, n, first) {
      assert Plus(first, b) == Plus(first, b - 0);
    }
  }

  /** Global and channel flags are letters followed by capitals, or a dash. */
  lemma FlagsSpelt(m: Mask, udef: Mask) returns (a: string, b: string)
    ensures FlagText(m, udef) == if a == "" && b == "" then "-" else a + b
    ensures forall p, q :: 0 <= p < q < |a| ==> a[p] < a[q]
    ensures forall p, q :: 0 <= p < q < |b| ==> b[p] < b[q]
    ensures forall i: nat :: i < 26 ==> (i in m <==> Plus('a', i) in a) && (i in udef <==> Plus('A', i) in b)
  {
    a, b := Letters(m, 0, LETTERS, 'a'), Letters(udef, 0, LETTERS, 'A');
    EachBit(m, 26, 'a');
    EachBit(udef, 26, 'A');
    TextOfTwo(a, b);
  }

  /** Flags of bots are letters up to 'u' followed by figures, or a dash. */
  lemma BotsSpelt(m: Mask) returns (a: string, b: string)
    ensures BotText(m) == if a == "" && b == "" then "-" else a + b
    ensures forall p, q :: 0 <= p < q < |a| ==> a[p] < a[q]
    ensures forall p, q :: 0 <= p < q < |b| ==> b[p] < b[q]
    ensures forall i: nat :: i < 21 ==> (i in m <==> Plus('a', i) in a)
    ensures forall i: nat :: 21 <= i < 31 ==> (i in m <==> Plus('0', i - 21) in b)
  {
    a, b := Letters(m, 0, BOT_LETTERS, 'a'), Letters(m, BOT_LETTERS, BOT_BITS, '0');
    EachBit(m, 21, 'a');
    EachFigure(m, BOT_LETTERS, BOT_BITS);
    TextOfTwo(a, b);
  }

  lemma EachFigure(m: Mask, from: nat, to: nat)
    requires from == 21 && to == 31
    ensures var b := Letters(m, from, to, '0');
            && (forall p, q :: 0 <= p < q < |b| ==> b[p] < b[q])
            && forall i: nat :: 21 <= i < 31 ==> (i in m <==> Plus('0', i - 21) in b)
  {
    Spelt(m, from, to, '0');
  }

  lemma TextOfTwo(a: string, b: string)
    ensures OrDash(a + b) == if a == "" && b == "" then "-" else a + b
  {
  }

  /** A part with something to take away begins with a sign, and what is taken away follows a '-'. */
  lemma PartSigns(mode: Mode, p: Masks, m: Masks)
    ensures var s := PartText(mode, p, m, true);
            && s != "" && (s[0] == '+' <==> Any(mode, p))
            && (Any(mode, m) ==> exists front :: s == front + "-" + ModeText(mode, m))
  {
    var sign, text := if Any(mode, p) then "+" else "", ModeText(mode, p);
    var tail := if Any(mode, m) then "-" + ModeText(mode, m) else "";
    TextStarts(mode, p);
    Signed(sign, text, tail);
    if Any(mode, m) {
      Regrouped(sign + text, ModeText(mode, m));
    }
  }

  lemma Signed(sign: string, text: string, tail: string)
    requires text != "" && text[0] != '+' && (sign == "" || sign == "+")
    ensures var s := sign + text + tail; s != "" && (s[0] == '+' <==> sign == "+")
  {
  }

  lemma Regrouped(front: string, text: string)
    ensures front + ("-" + text) == front + "-" + text
  {
  }

  lemma TextStarts(mode: Mode, p: Masks)
    ensures ModeText(mode, p) != "" && ModeText(mode, p)[0] != '+'
  {
    match mode
    case Global => StartsAbove(p.glob, LETTERS, 'a'); StartsAbove(p.udefGlob, LETTERS, 'A');
    case Channel => StartsAbove(p.chan, LETTERS, 'a'); StartsAbove(p.udefChan, LETTERS, 'A');
    case Bots => StartsAbove(p.bot, BOT_LETTERS, 'a'); DigitsAbove(p.bot);
  }

  lemma StartsAbove(m: Mask, n: nat, first: char)
    requires first as int + n <= 128 && first > '+'
    ensures Letters(m, 0, n, first) != "" ==> Letters(m, 0, n, first)[0] != '+'
  {
    Spelt(m, 0, n, first);
  }

  lemma DigitsAbove(m: Mask)
    ensures Letters(m, BOT_LETTERS, BOT_BITS, '0') != "" ==> Letters(m, BOT_LETTERS, BOT_BITS, '0')[0] != '+'
  {
    Spelt(m, BOT_LETTERS, BOT_BITS, '0');
  }
}
