/** flags.c: flag records as text, and back. A mask stands as the set of the numbers of its bits. */
module Flags {
  import opened Bits
  import opened Options

  type Mask = set<nat>

  // ---- Masks

  // The bits of a number of 32 bits.
  function BitsOf(x: nat): Mask {
    set i: nat | i < 32 && Shifted(x, i) % 2 == 1
  }

  // From flags.h
  const USER_VALID := 0x03fbfeff
  const CHAN_VALID := 0x03677c79
  const BOT_VALID := 0x7fe689c1
  const UDEF_VALID := 0x03ffffff

  const LETTERS: nat := 26
  const BOT_LETTERS: nat := 21
  const BOT_BITS: nat := 31

  datatype Masks = Masks(glob: Mask, udefGlob: Mask, bot: Mask, chan: Mask, udefChan: Mask)

  const NONE := Masks({}, {}, {}, {}, {})

  // What break_down_flags() lets through.
  function Valid(m: Masks): Masks {
    Masks(m.glob * BitsOf(USER_VALID), m.udefGlob * BitsOf(UDEF_VALID), m.bot * BitsOf(BOT_VALID),
          m.chan * BitsOf(CHAN_VALID), m.udefChan * BitsOf(UDEF_VALID))
  }

  // What a record is about: FR_GLOBAL, FR_BOT and FR_CHAN, and whether FR_AND and FR_OR are set.
  datatype Match = Match(glob: bool, bot: bool, chan: bool, and_: bool, or_: bool)

  // ---- To text

  // The characters for the bits from i to n, where bit i is first.
  function Letters(m: Mask, i: nat, n: nat, first: char): (s: string)
    requires i <= n && first as int + n - i <= 128
    decreases n - i
  {
    if i == n then ""
    else
      var next := (first as int + 1) as char;
      (if i in m then [first] else "") + Letters(m, i + 1, n, next)
  }

  function OrDash(s: string): string {
    if s == "" then "-" else s
  }

  // flag2str()
  function FlagText(m: Mask, udef: Mask): string {
    OrDash(Letters(m, 0, LETTERS, 'a') + Letters(udef, 0, LETTERS, 'A'))
  }

  // bot2str()
  function BotText(m: Mask): string {
    OrDash(Letters(m, 0, BOT_LETTERS, 'a') + Letters(m, BOT_LETTERS, BOT_BITS, '0'))
  }

  // The parts of a record: for all channels, for one, or for a bot.
  datatype Mode = Global | Channel | Bots

  predicate Any(mode: Mode, ms: Masks) {
    match mode
    case Global => ms.glob != {} || ms.udefGlob != {}
    case Channel => ms.chan != {} || ms.udefChan != {}
    case Bots => ms.bot != {}
  }

  function ModeText(mode: Mode, ms: Masks): string {
    match mode
    case Global => FlagText(ms.glob, ms.udefGlob)
    case Channel => FlagText(ms.chan, ms.udefChan)
    case Bots => BotText(ms.bot)
  }

  // One part, with signs before what is set and what is taken away.
  function PartText(mode: Mode, p: Masks, m: Masks, minus: bool): string {
    (if minus && Any(mode, p) then "+" else "") + ModeText(mode, p)
    + (if minus && Any(mode, m) then "-" + ModeText(mode, m) else "")
  }

  // build_flags(); without a record of what is taken away, minus is false.
  function Built(k: Match, p: Masks, m: Masks, minus: bool): string {
    OrDash((if k.glob then PartText(Global, p, m, minus) else if k.bot then PartText(Bots, p, m, minus) else "")
           + (if k.chan then (if k.glob || k.bot then (if k.and_ then "&" else "|") else "") + PartText(Channel, p, m, minus) else ""))
  }

  // ---- From text

  // Where break_down_flags() stands: what comes next goes to minus or to plus.
  datatype Reader = Reader(mode: Mode, toMinus: bool, plus: Masks, minus: Masks, and_: bool)

  function Set(m: Masks, mode: Mode, c: char): Masks {
    if 'a' <= c <= 'z' then
      var i: nat := c as int - 'a' as int;
      match mode
      case Global => m.(glob := m.glob + {i})
      case Channel => m.(chan := m.chan + {i})
      case Bots => if c <= 'u' then m.(bot := m.bot + {i}) else m
    else if 'A' <= c <= 'Z' then
      var i: nat := c as int - 'A' as int;
      match mode
      case Global => m.(udefGlob := m.udefGlob + {i})
      case Channel => m.(udefChan := m.udefChan + {i})
      case Bots => m
    else if '0' <= c <= '9' then
      var i: nat := c as int - '0' as int;
      match mode
      case Global => m.(udefGlob := m.udefGlob + {i})
      case Channel => m.(udefChan := m.udefChan + {i})
      case Bots => m.(bot := m.bot + {BOT_LETTERS + i})
    else m
  }

  function NextMode(mode: Mode): Mode {
    match mode
    case Global => Channel
    case Channel => Bots
    case Bots => Channel
  }

  // One character; without a record of what is taken away, everything goes to plus.
  function Read(r: Reader, c: char, minus: bool): Reader {
    if c == '+' then r.(toMinus := false)
    else if c == '-' then r.(toMinus := minus)
    else if c == '|' || c == '&' then
      Reader(NextMode(r.mode), false, r.plus, r.minus, if r.mode == Global then c == '&' else r.and_)
    else if r.toMinus then r.(minus := Set(r.minus, r.mode, c))
    else r.(plus := Set(r.plus, r.mode, c))
  }

  function ReadAll(r: Reader, s: string, minus: bool): Reader
    decreases |s|
  {
    if s == "" then r else ReadAll(Read(r, s[0], minus), s[1..], minus)
  }

  function Start(k: Match): Reader {
    Reader(if k.glob then Global else if k.bot then Bots else Channel, false, NONE, NONE, false)
  }

  // The masks read, and what the record is about then; what is taken away is about what it was before.
  datatype Parsed = Parsed(plus: Masks, minus: Masks, match_: Match)

  // One of FR_AND and FR_OR comes from the text, and either may have been there before.
  function Joined(k: Match, and_: bool): Match {
    k.(and_ := k.and_ || and_, or_ := k.or_ || !and_)
  }

  // break_down_flags(), into a record that is about k
  function BrokenDown(k: Match, s: string, minus: bool): Parsed {
    var r := ReadAll(Start(k), s, minus);
    Parsed(Valid(r.plus), Valid(r.minus), Joined(k, r.and_))
  }

  // ---- The round trip

  lemma {:induction false} ReadJoin(r: Reader, a: string, b: string, minus: bool)
    ensures ReadAll(r, a + b, minus) == ReadAll(ReadAll(r, a, minus), b, minus)
    decreases |a|
  {
    if a == "" {
      assert a + b == b;
    } else {
      assert (a + b)[1..] == a[1..] + b;
      ReadJoin(Read(r, a[0], minus), a[1..], b, minus);
    }
  }

  // The bits from i to n.
  function Part(m: Mask, i: nat, n: nat): Mask {
    set b | b in m && i <= b < n
  }

  // The masks that the letters of a mode go to: small ones, and capitals or digits.
  function Add(m: Masks, mode: Mode, small: Mask, large: Mask): Masks {
    match mode
    case Global => m.(glob := m.glob + small, udefGlob := m.udefGlob + large)
    case Channel => m.(chan := m.chan + small, udefChan := m.udefChan + large)
    case Bots => m.(bot := m.bot + small + large)
  }

  function AddTo(r: Reader, small: Mask, large: Mask): Reader {
    if r.toMinus then r.(minus := Add(r.minus, r.mode, small, large))
    else r.(plus := Add(r.plus, r.mode, small, large))
  }

  lemma AddTwice(r: Reader, a: Mask, b: Mask, c: Mask, d: Mask)
    ensures AddTo(AddTo(r, a, b), c, d) == AddTo(r, a + c, b + d)
  {
    var m := if r.toMinus then r.minus else r.plus;
    assert m.glob + a + c == m.glob + (a + c) && m.udefGlob + b + d == m.udefGlob + (b + d);
    assert m.chan + a + c == m.chan + (a + c) && m.udefChan + b + d == m.udefChan + (b + d);
    assert m.bot + a + b + c + d == m.bot + (a + c) + (b + d);
  }

  lemma ReadOne(r: Reader, c: char, s: string, minus: bool)
    ensures ReadAll(r, [c] + s, minus) == ReadAll(Read(r, c, minus), s, minus)
  {
    assert ([c] + s)[1..] == s;
  }

  lemma AddSmall(r: Reader, a: Mask, b: Mask)
    ensures AddTo(AddTo(r, a, {}), b, {}) == AddTo(r, a + b, {})
  {
    AddTwice(r, a, {}, b, {});
    assert forall x: Mask :: x + {} == x;
  }

  lemma AddLarge(r: Reader, a: Mask, b: Mask)
    ensures AddTo(AddTo(r, {}, a), {}, b) == AddTo(r, {}, a + b)
  {
    AddTwice(r, {}, a, {}, b);
    assert forall x: Mask :: x + {} == x;
  }

  lemma OneBit(m: Mask, i: nat, n: nat)
    requires i < n && i in m
    ensures {i} + Part(m, i + 1, n) == Part(m, i, n)
  {
  }

  // A letter that is there, before the letters of higher bits.
  lemma BitRead(r: Reader, c: char, rest: string, m: Mask, i: nat, n: nat, small: bool, minus: bool)
    requires i < n && i in m
    requires Read(r, c, minus) == if small then AddTo(r, {i}, {}) else AddTo(r, {}, {i})
    requires ReadAll(Read(r, c, minus), rest, minus) ==
             if small then AddTo(Read(r, c, minus), Part(m, i + 1, n), {}) else AddTo(Read(r, c, minus), {}, Part(m, i + 1, n))
    ensures ReadAll(r, [c] + rest, minus) == if small then AddTo(r, Part(m, i, n), {}) else AddTo(r, {}, Part(m, i, n))
  {
    ReadOne(r, c, rest, minus);
    OneBit(m, i, n);
    if small {
      AddSmall(r, {i}, Part(m, i + 1, n));
    } else {
      AddLarge(r, {i}, Part(m, i + 1, n));
    }
  }

  lemma NoBit(m: Mask, i: nat, n: nat)
    requires i !in m
    ensures Part(m, i + 1, n) == Part(m, i, n)
  {
  }

  lemma {:induction false} ReadSmall(r: Reader, m: Mask, i: nat, n: nat, minus: bool)
    requires i <= n <= LETTERS && (r.mode == Bots ==> n <= BOT_LETTERS)
    ensures ReadAll(r, Letters(m, i, n, ('a' as int + i) as char), minus) == AddTo(r, Part(m, i, n), {})
    decreases n - i
  {
    if i == n {
      AddNothing(r);
      assert Part(m, i, n) == {};
    } else {
      var c := ('a' as int + i) as char;
      var rest := Letters(m, i + 1, n, ('a' as int + i + 1) as char);
      if i in m {
        SetSmall(r, i);
        ReadSmall(Read(r, c, minus), m, i + 1, n, minus);
        BitRead(r, c, rest, m, i, n, true, minus);
      } else {
        ReadSmall(r, m, i + 1, n, minus);
        NoBit(m, i, n);
        assert "" + rest == rest;
      }
    }
  }

  lemma AddNothing(r: Reader)
    ensures AddTo(r, {}, {}) == r
  {
    var m := if r.toMinus then r.minus else r.plus;
    assert m.glob + {} == m.glob && m.udefGlob + {} == m.udefGlob && m.chan + {} == m.chan
           && m.udefChan + {} == m.udefChan && m.bot + {} + {} == m.bot;
  }

  lemma SetSmall(r: Reader, i: nat)
    requires i < LETTERS && (r.mode == Bots ==> i < BOT_LETTERS)
    ensures Set(if r.toMinus then r.minus else r.plus, r.mode, ('a' as int + i) as char)
            == Add(if r.toMinus then r.minus else r.plus, r.mode, {i}, {})
  {
    var m := if r.toMinus then r.minus else r.plus;
    assert m.udefGlob + {} == m.udefGlob && m.udefChan + {} == m.udefChan && m.bot + {i} + {} == m.bot + {i};
  }

  lemma SetLarge(r: Reader, i: nat)
    requires r.mode != Bots && i < LETTERS
    ensures Set(if r.toMinus then r.minus else r.plus, r.mode, ('A' as int + i) as char)
            == Add(if r.toMinus then r.minus else r.plus, r.mode, {}, {i})
  {
    var m := if r.toMinus then r.minus else r.plus;
    assert m.glob + {} == m.glob && m.chan + {} == m.chan;
  }

  lemma SetDigit(r: Reader, i: nat)
    requires r.mode == Bots && BOT_LETTERS <= i < BOT_BITS
    ensures Set(if r.toMinus then r.minus else r.plus, r.mode, ('0' as int + (i - BOT_LETTERS)) as char)
            == Add(if r.toMinus then r.minus else r.plus, r.mode, {}, {i})
  {
    var m := if r.toMinus then r.minus else r.plus;
    assert m.bot + {} + {i} == m.bot + {i};
  }

  lemma {:induction false} ReadLarge(r: Reader, m: Mask, i: nat, n: nat, minus: bool)
    requires r.mode != Bots && i <= n <= LETTERS
    ensures ReadAll(r, Letters(m, i, n, ('A' as int + i) as char), minus) == AddTo(r, {}, Part(m, i, n))
    decreases n - i
  {
    if i == n {
      AddNothing(r);
      assert Part(m, i, n) == {};
    } else {
      var c := ('A' as int + i) as char;
      var rest := Letters(m, i + 1, n, ('A' as int + i + 1) as char);
      if i in m {
        SetLarge(r, i);
        ReadLarge(Read(r, c, minus), m, i + 1, n, minus);
        BitRead(r, c, rest, m, i, n, false, minus);
      } else {
        ReadLarge(r, m, i + 1, n, minus);
        NoBit(m, i, n);
        assert "" + rest == rest;
      }
    }
  }

  lemma {:induction false} ReadDigits(r: Reader, m: Mask, i: nat, n: nat, minus: bool)
    requires r.mode == Bots && BOT_LETTERS <= i <= n <= BOT_BITS
    ensures ReadAll(r, Letters(m, i, n, ('0' as int + (i - BOT_LETTERS)) as char), minus) == AddTo(r, {}, Part(m, i, n))
    decreases n - i
  {
    if i == n {
      AddNothing(r);
      assert Part(m, i, n) == {};
    } else {
      var c := ('0' as int + (i - BOT_LETTERS)) as char;
      var rest := Letters(m, i + 1, n, ('0' as int + (i + 1 - BOT_LETTERS)) as char);
      if i in m {
        SetDigit(r, i);
        ReadDigits(Read(r, c, minus), m, i + 1, n, minus);
        BitRead(r, c, rest, m, i, n, false, minus);
      } else {
        ReadDigits(r, m, i + 1, n, minus);
        NoBit(m, i, n);
        assert "" + rest == rest;
      }
    }
  }

  lemma {:induction false} NoLetters(m: Mask, i: nat, n: nat, first: char)
    requires i <= n && first as int + n - i <= 128
    ensures Letters(m, i, n, first) == "" <==> Part(m, i, n) == {}
    decreases n - i
  {
    if i < n {
      NoLetters(m, i + 1, n, (first as int + 1) as char);
      if i in m {
        assert i in Part(m, i, n);
      } else {
        assert Part(m, i + 1, n) == Part(m, i, n);
      }
    } else {
      assert Part(m, i, n) == {};
    }
  }

  // Which bits of a mask a mode prints, and with which characters.
  function Small(mode: Mode, ms: Masks): Mask {
    match mode
    case Global => Part(ms.glob, 0, LETTERS)
    case Channel => Part(ms.chan, 0, LETTERS)
    case Bots => Part(ms.bot, 0, BOT_LETTERS)
  }

  function Large(mode: Mode, ms: Masks): Mask {
    match mode
    case Global => Part(ms.udefGlob, 0, LETTERS)
    case Channel => Part(ms.udefChan, 0, LETTERS)
    case Bots => Part(ms.bot, BOT_LETTERS, BOT_BITS)
  }

  lemma ReadLetters(r: Reader, a: string, b: string, small: Mask, large: Mask, minus: bool)
    requires ReadAll(r, a, minus) == AddTo(r, small, {})
    requires ReadAll(AddTo(r, small, {}), b, minus) == AddTo(AddTo(r, small, {}), {}, large)
    requires (a == "" <==> small == {}) && (b == "" <==> large == {})
    ensures ReadAll(r, OrDash(a + b), minus) ==
            if small == {} && large == {} then r.(toMinus := minus) else AddTo(r, small, large)
  {
    ReadJoin(r, a, b, minus);
    AddTwice(r, small, {}, {}, large);
    assert small + {} == small && {} + large == large;
    if a == "" && b == "" {
      assert a + b == "";
      ReadOne(r, '-', "", minus);
    }
  }

  // The letters of a record set its bits; a dash for none changes the side instead.
  lemma ReadMode(r: Reader, ms: Masks, minus: bool)
    ensures ReadAll(r, ModeText(r.mode, ms), minus) ==
            if Small(r.mode, ms) == {} && Large(r.mode, ms) == {} then r.(toMinus := minus)
            else AddTo(r, Small(r.mode, ms), Large(r.mode, ms))
  {
    var small, large := Small(r.mode, ms), Large(r.mode, ms);
    match r.mode
    case Global =>
      CapitalsRead(r, ms.glob, ms.udefGlob, minus);
      ReadLetters(r, Letters(ms.glob, 0, LETTERS, 'a'), Letters(ms.udefGlob, 0, LETTERS, 'A'), small, large, minus);
    case Channel =>
      CapitalsRead(r, ms.chan, ms.udefChan, minus);
      ReadLetters(r, Letters(ms.chan, 0, LETTERS, 'a'), Letters(ms.udefChan, 0, LETTERS, 'A'), small, large, minus);
    case Bots =>
      var a, b := Letters(ms.bot, 0, BOT_LETTERS, 'a'), Letters(ms.bot, BOT_LETTERS, BOT_BITS, '0');
      ReadSmall(r, ms.bot, 0, BOT_LETTERS, minus);
      ReadDigits(AddTo(r, small, {}), ms.bot, BOT_LETTERS, BOT_BITS, minus);
      NoLetters(ms.bot, 0, BOT_LETTERS, 'a');
      NoLetters(ms.bot, BOT_LETTERS, BOT_BITS, '0');
      ReadLetters(r, a, b, small, large, minus);
  }

  lemma CapitalsRead(r: Reader, m: Mask, udef: Mask, minus: bool)
    requires r.mode != Bots
    ensures var small, large := Part(m, 0, LETTERS), Part(udef, 0, LETTERS);
            var a, b := Letters(m, 0, LETTERS, 'a'), Letters(udef, 0, LETTERS, 'A');
            && ReadAll(r, a, minus) == AddTo(r, small, {})
            && ReadAll(AddTo(r, small, {}), b, minus) == AddTo(AddTo(r, small, {}), {}, large)
            && (a == "" <==> small == {}) && (b == "" <==> large == {})
  {
    ReadSmall(r, m, 0, LETTERS, minus);
    ReadLarge(AddTo(r, Part(m, 0, LETTERS), {}), udef, 0, LETTERS, minus);
    NoLetters(m, 0, LETTERS, 'a');
    NoLetters(udef, 0, LETTERS, 'A');
  }

  lemma NothingSet(mode: Mode, ms: Masks)
    requires !Any(mode, ms)
    ensures Small(mode, ms) == {} && Large(mode, ms) == {}
  {
  }

  // What is left of the side is of no concern: it is set again before it is used.
  ghost predicate Sets(r: Reader, r': Reader, plus: Masks, minus: Masks) {
    r'.mode == r.mode && r'.and_ == r.and_ && r'.plus == plus && r'.minus == minus
  }

  lemma ReadPlus(r: Reader, p: Masks, minus: bool)
    requires !r.toMinus
    ensures var s := (if minus && Any(r.mode, p) then "+" else "") + ModeText(r.mode, p);
            Sets(r, ReadAll(r, s, minus), Add(r.plus, r.mode, Small(r.mode, p), Large(r.mode, p)), r.minus)
  {
    ReadMode(r, p, minus);
    AddNothing(r);
    if minus && Any(r.mode, p) {
      ReadOne(r, '+', ModeText(r.mode, p), minus);
    } else {
      assert "" + ModeText(r.mode, p) == ModeText(r.mode, p);
    }
  }

  lemma ReadMinus(r: Reader, m: Masks)
    ensures Sets(r, ReadAll(r, "-" + ModeText(r.mode, m), true), r.plus, Add(r.minus, r.mode, Small(r.mode, m), Large(r.mode, m)))
  {
    var r' := r.(toMinus := true);
    ReadOne(r, '-', ModeText(r.mode, m), true);
    ReadMode(r', m, true);
    AddNothing(r');
  }

  /** A part of a record sets the bits that can be printed, on both sides. */
  lemma ReadPart(r: Reader, p: Masks, m: Masks, minus: bool)
    requires !r.toMinus
    ensures Sets(r, ReadAll(r, PartText(r.mode, p, m, minus), minus),
                 Add(r.plus, r.mode, Small(r.mode, p), Large(r.mode, p)),
                 if minus then Add(r.minus, r.mode, Small(r.mode, m), Large(r.mode, m)) else r.minus)
  {
    var a := (if minus && Any(r.mode, p) then "+" else "") + ModeText(r.mode, p);
    var b := if minus && Any(r.mode, m) then "-" + ModeText(r.mode, m) else "";
    var r1 := ReadAll(r, a, minus);
    ReadPlus(r, p, minus);
    ReadJoin(r, a, b, minus);
    if minus {
      if Any(r.mode, m) {
        ReadMinus(r1, m);
      } else {
        NothingSet(r.mode, m);
        AddNothing(r.(toMinus := true));
      }
    }
  }

  // ---- Valid bits can be printed

  lemma {:induction false} ShiftEnds(x: nat, n: nat, i: nat)
    requires Shifted(x, n) == 0 && n <= i
    ensures Shifted(x, i) == 0
    decreases i
  {
    if n < i {
      ShiftEnds(x, n, i - 1);
    }
  }

  lemma ShiftOf(x: nat)
    ensures Shifted(x, 24) == x / 256 / 256 / 256
    ensures Shifted(x, 26) == x / 256 / 256 / 256 / 2 / 2
    ensures Shifted(x, 31) == x / 256 / 256 / 256 / 2 / 2 / 2 / 2 / 2 / 2 / 2
  {
    Shifted8(x, 0);
    Shifted8(x, 8);
    Shifted8(x, 16);
    assert Shifted(x, 0) == x;
    assert Shifted(x, 26) == Shifted(x, 25) / 2;
    assert Shifted(x, 28) == Shifted(x, 27) / 2;
    assert Shifted(x, 30) == Shifted(x, 29) / 2;
    assert Shifted(x, 31) == Shifted(x, 30) / 2;
  }

  lemma BitsBelow(x: nat, n: nat)
    requires Shifted(x, n) == 0
    ensures forall i :: i in BitsOf(x) ==> i < n
  {
    forall i: nat | n <= i ensures Shifted(x, i) == 0 {
      ShiftEnds(x, n, i);
    }
  }

  lemma LettersBelow(x: nat)
    requires x < 0x0400_0000
    ensures forall i :: i in BitsOf(x) ==> i < LETTERS
  {
    ShiftOf(x);
    BitsBelow(x, LETTERS);
  }

  lemma BotBitsBelow(x: nat)
    requires x < 0x8000_0000
    ensures forall i :: i in BitsOf(x) ==> i < BOT_BITS
  {
    ShiftOf(x);
    BitsBelow(x, BOT_BITS);
  }

  lemma ValidBits()
    ensures forall i :: i in BitsOf(USER_VALID) || i in BitsOf(CHAN_VALID) || i in BitsOf(UDEF_VALID) ==> i < LETTERS
    ensures forall i :: i in BitsOf(BOT_VALID) ==> i < BOT_BITS
  {
    LettersBelow(USER_VALID);
    LettersBelow(CHAN_VALID);
    LettersBelow(UDEF_VALID);
    BotBitsBelow(BOT_VALID);
  }

  // The parts of a record that are printed.
  function Kept(k: Match, ms: Masks): Masks {
    Masks(if k.glob then ms.glob else {}, if k.glob then ms.udefGlob else {},
          if k.bot && !k.glob then ms.bot else {},
          if k.chan then ms.chan else {}, if k.chan then ms.udefChan else {})
  }

  // What a reader of these parts has set.
  function Printed(k: Match, ms: Masks): Masks {
    var first := if k.glob then Add(NONE, Global, Small(Global, ms), Large(Global, ms))
                 else if k.bot then Add(NONE, Bots, Small(Bots, ms), Large(Bots, ms)) else NONE;
    if k.chan then Add(first, Channel, Small(Channel, ms), Large(Channel, ms)) else first
  }

  lemma MeetPart(m: Mask, v: Mask, n: nat)
    requires forall i :: i in v ==> i < n
    ensures ({} + Part(m, 0, n)) * v == m * v
  {
  }

  lemma MeetParts(m: Mask, v: Mask)
    requires forall i :: i in v ==> i < BOT_BITS
    ensures ({} + Part(m, 0, BOT_LETTERS) + Part(m, BOT_LETTERS, BOT_BITS)) * v == m * v
  {
  }

  lemma PrintedValid(k: Match, ms: Masks)
    ensures Valid(Printed(k, ms)) == Valid(Kept(k, ms))
  {
    ValidBits();
    MeetPart(ms.glob, BitsOf(USER_VALID), LETTERS);
    MeetPart(ms.udefGlob, BitsOf(UDEF_VALID), LETTERS);
    MeetPart(ms.chan, BitsOf(CHAN_VALID), LETTERS);
    MeetPart(ms.udefChan, BitsOf(UDEF_VALID), LETTERS);
    MeetParts(ms.bot, BitsOf(BOT_VALID));
  }

  lemma FirstRead(k: Match, p: Masks, m: Masks, minus: bool)
    requires k.glob || k.bot
    ensures var mode := Start(k).mode;
            Sets(Start(k), ReadAll(Start(k), PartText(mode, p, m, minus), minus),
                 Printed(k.(chan := false), p), if minus then Printed(k.(chan := false), m) else NONE)
  {
    ReadPart(Start(k), p, m, minus);
  }

  lemma BuiltIs(k: Match, p: Masks, m: Masks, minus: bool)
    requires k.glob || k.bot || k.chan
    ensures var first := PartText(Start(k).mode, p, m, minus);
            Built(k, p, m, minus) ==
            if !k.chan || !(k.glob || k.bot) then first
            else first + ((if k.and_ then "&" else "|") + PartText(Channel, p, m, minus))
  {
    assert PartText(Start(k).mode, p, m, minus) != "";
    assert "" + PartText(Channel, p, m, minus) == PartText(Channel, p, m, minus);
  }

  /** What is read back from the text of a record, into one about the same parts, is what was printed of
      it, less the bits that are not valid; that two parts were joined by "&" is read back only for global
      and channel flags, and is otherwise as the record read into had it. */
  lemma RoundTrip(k: Match, p: Masks, m: Masks, minus: bool, into: Match)
    requires k.glob || k.bot || k.chan
    requires into.glob == k.glob && into.bot == k.bot && into.chan == k.chan
    ensures BrokenDown(into, Built(k, p, m, minus), minus) ==
            Parsed(Valid(Kept(k, p)), if minus then Valid(Kept(k, m)) else NONE, Joined(into, k.glob && k.chan && k.and_))
  {
    BuiltIs(k, p, m, minus);
    PrintedValid(k, p);
    PrintedValid(k, m);
    assert Valid(NONE) == NONE;
    if k.glob || k.bot {
      FirstRead(k, p, m, minus);
      if k.chan {
        SecondRead(k, p, m, minus);
      }
    } else {
      ReadPart(Start(k), p, m, minus);
    }
  }

  lemma SecondRead(k: Match, p: Masks, m: Masks, minus: bool)
    requires (k.glob || k.bot) && k.chan
    ensures var r := ReadAll(Start(k), PartText(Start(k).mode, p, m, minus) + ((if k.and_ then "&" else "|") + PartText(Channel, p, m, minus)), minus);
            r.plus == Printed(k, p) && r.minus == (if minus then Printed(k, m) else NONE) && r.and_ == (k.glob && k.and_)
  {
    var first, second := PartText(Start(k).mode, p, m, minus), PartText(Channel, p, m, minus);
    var sep := if k.and_ then '&' else '|';
    FirstRead(k, p, m, minus);
    ReadJoin(Start(k), first, [sep] + second, minus);
    var r := ReadAll(Start(k), first, minus);
    ReadOne(r, sep, second, minus);
    ReadPart(Read(r, sep, minus), p, m, minus);
  }

  /** The masks of a record of any of the five kinds come back unchanged exactly when they have no bits
      but valid ones, and only of that kind; what it is about, exactly when it was marked as joined by "|"
      or its "&" stood in the text. */
  lemma SameRecord(k: Match, p: Masks, m: Masks)
    requires k.glob || k.bot || k.chan
    ensures var back := BrokenDown(k, Built(k, p, m, true), true);
            && (back.plus == p && back.minus == m <==> p == Valid(Kept(k, p)) && m == Valid(Kept(k, m)))
            && (back.match_ == k <==> k.or_ || (k.glob && k.chan && k.and_))
  {
    RoundTrip(k, p, m, true, k);
  }

  // ---- Character by character

  // The bits of a mask from i on, in a loop that ends with the mask or with the alphabet.
  method PutLetters(m: Mask, n: nat, first: char) returns (s: string)
    requires n <= LETTERS && first as int <= 'a' as int
    ensures s == Letters(m, 0, n, first)
  {
    s := "";
    var i := 0;
    while i < n && (set b | b in m && b >= i) != {}
      invariant 0 <= i <= n
      invariant Letters(m, 0, n, first) == s + Letters(m, i, n, (first as int + i) as char)
      decreases n - i
    {
      if i in m {
        s := s + [(first as int + i) as char];
      }
      i := i + 1;
    }
    NoneLeft(m, i, n, (first as int + i) as char);
    assert s + "" == s;
  }

  lemma NoneLeft(m: Mask, i: nat, n: nat, first: char)
    requires i <= n && first as int + n - i <= 128 && (i == n || (set b | b in m && b >= i) == {})
    ensures Letters(m, i, n, first) == ""
  {
    NoLetters(m, i, n, first);
    var left := set b | b in m && b >= i;
    assert i == n || Part(m, i, n) <= left;
  }

  /** flag2str() */
  method Flag2str(bot: Mask, udef: Mask) returns (s: string)
    ensures s == FlagText(bot, udef)
  {
    s := PutLetters(bot, 26, 'a');
    var capitals := PutLetters(udef, 26, 'A');
    s := s + capitals;
    if s == "" {
      s := "-";
    }
  }

  // The bits from one on up to another, in a loop that ends with the alphabet.
  method PutBits(m: Mask, from: nat, to: nat, first: char) returns (s: string)
    requires from <= to && first as int + to - from <= 128
    ensures s == Letters(m, from, to, first)
  {
    s := "";
    var x := first as int;
    assert "" + Letters(m, from, to, first) == Letters(m, from, to, first);
    for i := from to to
      invariant x == first as int + i - from
      invariant Letters(m, from, to, first) == s + Letters(m, i, to, x as char)
    {
      if i in m {
        s := s + [x as char];
      }
      x := x + 1;
    }
    assert s + "" == s;
  }

  /** bot2str() */
  method Bot2str(bot: Mask) returns (s: string)
    ensures s == BotText(bot)
  {
    s := PutBits(bot, 0, BOT_LETTERS, 'a');
    var digits := PutBits(bot, BOT_LETTERS, BOT_BITS, '0');
    s := s + digits;
    if s == "" {
      s := "-";
    }
  }

  method PutMode(mode: Mode, ms: Masks) returns (s: string)
    ensures s == ModeText(mode, ms)
  {
    match mode {
      case Global => s := Flag2str(ms.glob, ms.udefGlob);
      case Channel => s := Flag2str(ms.chan, ms.udefChan);
      case Bots => s := Bot2str(ms.bot);
    }
  }

  method PutPart(mode: Mode, p: Masks, m: Masks, minus: bool) returns (s: string)
    ensures s == PartText(mode, p, m, minus)
  {
    s := if minus && Any(mode, p) then "+" else "";
    var text := PutMode(mode, p);
    s := s + text;
    if minus && Any(mode, m) {
      var away := PutMode(mode, m);
      s := s + ("-" + away);
    } else {
      assert s + "" == s;
    }
  }

  /** build_flags() */
  method BuildFlags(k: Match, plus: Masks, minus: Option<Masks>) returns (s: string)
    ensures s == Built(k, plus, if minus.Some? then minus.value else NONE, minus.Some?)
  {
    var m := if minus.Some? then minus.value else NONE;
    s := "";
    if k.glob {
      s := PutPart(Global, plus, m, minus.Some?);
    } else if k.bot {
      s := PutPart(Bots, plus, m, minus.Some?);
    }
    ghost var first := s;
    if k.chan {
      var sep := if k.glob || k.bot then (if k.and_ then "&" else "|") else "";
      var chan := PutPart(Channel, plus, m, minus.Some?);
      s := s + (sep + chan);
    } else {
      assert s + "" == s;
    }
    if s == "" {
      s := "-";
    }
  }

  function Separators(s: string): nat {
    if s == "" then 0 else (if s[0] == '|' || s[0] == '&' then 1 else 0) + Separators(s[1..])
  }

  /** break_down_flags(); a record about global flags alone is not given two separators. */
  method BreakDownFlags(k: Match, s: string, hasMinus: bool) returns (r: Option<Parsed>)
    requires k.bot || k.chan || Separators(s) <= 1
    ensures r == if k.glob || k.bot || k.chan then Some(BrokenDown(k, s, hasMinus)) else None
  {
    var mode := Global;
    if !k.glob {
      if k.bot {
        mode := Bots;
      } else if k.chan {
        mode := Channel;
      } else {
        return None;
      }
    }
    var plus, minus, toMinus, and_ := NONE, NONE, false, false;
    var i := 0;
    assert s[0..] == s;
    while i < |s|
      invariant 0 <= i <= |s|
      invariant ReadAll(Reader(mode, toMinus, plus, minus, and_), s[i..], hasMinus) == ReadAll(Start(k), s, hasMinus)
    {
      assert s[i..][1..] == s[i + 1..];
      var c := s[i];
      if c == '+' {
        toMinus := false;
      } else if c == '-' {
        toMinus := hasMinus;
      } else if c == '|' || c == '&' {
        if mode == Global {
          and_ := c == '&';
        }
        toMinus := false;
        mode := NextMode(mode);
      } else if toMinus {
        minus := Set(minus, mode, c);
      } else {
        plus := Set(plus, mode, c);
      }
      i := i + 1;
    }
    return Some(Parsed(Valid(plus), Valid(minus), Joined(k, and_)));
  }
}
