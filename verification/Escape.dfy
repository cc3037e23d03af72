/** misc.c: fields that are escaped, joined, and taken apart again in place. */
module Escape {
  import opened Options

  predicate Ascii(c: char) {
    '\0' < c < 128 as char
  }

  // ---- Escaping

  function HexDigit(v: nat): char
    requires v < 16
  {
    if v < 10 then (v + '0' as int) as char else (v - 10 + 'a' as int) as char
  }

  // A character as the mask and two hex digits.
  function Code(c: char, mask: char): string
    requires Ascii(c)
  {
    [mask, HexDigit(c as int / 16), HexDigit(c as int % 16)]
  }

  function One(c: char, div: char, mask: char): (e: string)
    requires Ascii(div) && Ascii(mask)
    ensures 1 <= |e| <= 3
  {
    if c == div || c == mask then Code(c, mask) else [c]
  }

  function Escaped(s: string, div: char, mask: char): (e: string)
    requires Ascii(div) && Ascii(mask)
  {
    if s == "" then "" else Escaped(s[..|s| - 1], div, mask) + One(s[|s| - 1], div, mask)
  }

  function Specials(s: string, div: char, mask: char): nat {
    if s == "" then 0
    else Specials(s[..|s| - 1], div, mask) + if s[|s| - 1] == div || s[|s| - 1] == mask then 1 else 0
  }

  /** Only dividers and masks are escaped; each of them takes two characters more. */
  lemma {:induction false} OnlySpecials(s: string, div: char, mask: char)
    requires Ascii(div) && Ascii(mask)
    ensures |Escaped(s, div, mask)| == |s| + 2 * Specials(s, div, mask)
    ensures div !in s && mask !in s ==> Escaped(s, div, mask) == s
  {
    if s != "" {
      OnlySpecials(s[..|s| - 1], div, mask);
      assert s == s[..|s| - 1] + [s[|s| - 1]];
    }
  }

  // ---- Unescaping

  function HexValue(c: char): Option<nat> {
    if '0' <= c <= '9' then Some(c as int - '0' as int)
    else if 'a' <= c <= 'f' then Some(c as int - 'a' as int + 10)
    else if 'A' <= c <= 'F' then Some(c as int - 'A' as int + 10)
    else None
  }

  // strtol() to the base 16 of a text of two characters, as an unsigned char.
  function Decode(a: char, b: char): char {
    match (HexValue(a), HexValue(b))
    case (Some(x), Some(y)) => (16 * x + y) as char
    case (Some(x), None) => x as char
    case (None, Some(y)) =>
      if a in " \t\n\r+" || a == '\U{0B}' || a == '\U{0C}' then y as char
      else if a == '-' then ((256 - y) % 256) as char
      else '\0'
    case (None, None) => '\0'
  }

  // No escape character is cut off from its two digits before the first divider.
  predicate Complete(t: string, div: char, esc: char) {
    if t == "" then true
    else if t[0] == esc then |t| >= 3 && Complete(t[3..], div, esc)
    else if t[0] == div then true
    else Complete(t[1..], div, esc)
  }

  // A field, and what follows its divider, if there is one.
  datatype Field = Field(text: string, rest: Option<string>)

  function Unescaped(t: string, div: char, esc: char): Field
    requires Complete(t, div, esc)
  {
    if t == "" then Field("", None)
    else if t[0] == esc then
      var f := Unescaped(t[3..], div, esc);
      f.(text := [Decode(t[1], t[2])] + f.text)
    else if t[0] == div then Field("", Some(t[1..]))
    else
      var f := Unescaped(t[1..], div, esc);
      f.(text := [t[0]] + f.text)
  }

  /** Two hex digits in either case are a number; one in front of or behind a blank or a plus is that digit,
      and one behind a minus counts down from 256. */
  lemma DecodeIs(v: nat, w: nat)
    requires v < 16 && w < 16
    ensures forall a, b :: a in HexSpelt(v) && b in HexSpelt(w) ==> Decode(a, b) == (16 * v + w) as char
  {
  }

  lemma DecodeHalf(v: nat)
    requires v < 16
    ensures forall a, b :: a in HexSpelt(v) && b in " +-g" ==> Decode(a, b) == v as char
    ensures forall b :: b in HexSpelt(v) ==> Decode(' ', b) == v as char && Decode('+', b) == v as char && Decode('g', b) == '\0'
    ensures forall b :: b in HexSpelt(v) ==> Decode('-', b) as int == if v == 0 then 0 else 256 - v
  {
  }

  function HexSpelt(v: nat): set<char>
    requires v < 16
  {
    if v < 10 then {('0' as int + v) as char} else {('a' as int + v - 10) as char, ('A' as int + v - 10) as char}
  }

  // ---- The round trip

  lemma CodeBack(c: char)
    requires Ascii(c)
    ensures Decode(HexDigit(c as int / 16), HexDigit(c as int % 16)) == c
  {
  }

  lemma {:induction false} EscapedFront(c: char, s: string, div: char, mask: char)
    requires Ascii(div) && Ascii(mask)
    ensures Escaped([c] + s, div, mask) == One(c, div, mask) + Escaped(s, div, mask)
  {
    if s == "" {
      assert [c] + s == [c] && [c][..0] == "";
    } else {
      var front, last := s[..|s| - 1], s[|s| - 1];
      EscapedFront(c, front, div, mask);
      assert ([c] + s)[..|s|] == [c] + front;
      Assoc(One(c, div, mask), Escaped(front, div, mask), One(last, div, mask));
    }
  }

  lemma Assoc(a: string, b: string, c: string)
    ensures a + b + c == a + (b + c)
  {
  }

  lemma UnescapeOne(c: char, tail: string, div: char, mask: char)
    requires Ascii(div) && Ascii(mask) && div != mask && Complete(tail, div, mask)
    ensures Complete(One(c, div, mask) + tail, div, mask)
    ensures var f := Unescaped(tail, div, mask);
            Unescaped(One(c, div, mask) + tail, div, mask) == Field([c] + f.text, f.rest)
  {
    if c == div || c == mask {
      var t := Code(c, mask) + tail;
      CodeBack(c);
      assert t[3..] == tail && t[0] == mask && t[1] == HexDigit(c as int / 16) && t[2] == HexDigit(c as int % 16);
    } else {
      assert ([c] + tail)[1..] == tail;
    }
  }

  // An escaped text with the end, or a divider, behind it is read back up to there.
  lemma {:induction false} FieldBack(s: string, end: string, div: char, mask: char)
    requires Ascii(div) && Ascii(mask) && div != mask && (end == "" || end[0] == div)
    ensures Complete(Escaped(s, div, mask) + end, div, mask)
    ensures Unescaped(Escaped(s, div, mask) + end, div, mask) == Field(s, if end == "" then None else Some(end[1..]))
    decreases |s|
  {
    if s == "" {
      assert "" + end == end;
    } else {
      FieldBack(s[1..], end, div, mask);
      CharBack(s, end, div, mask);
    }
  }

  lemma CharBack(s: string, end: string, div: char, mask: char)
    requires Ascii(div) && Ascii(mask) && div != mask && s != ""
    requires Complete(Escaped(s[1..], div, mask) + end, div, mask)
    requires Unescaped(Escaped(s[1..], div, mask) + end, div, mask).text == s[1..]
    ensures Complete(Escaped(s, div, mask) + end, div, mask)
    ensures Unescaped(Escaped(s, div, mask) + end, div, mask) ==
            Field(s, Unescaped(Escaped(s[1..], div, mask) + end, div, mask).rest)
  {
    EscapedMore(s, end, div, mask);
    UnescapeOne(s[0], Escaped(s[1..], div, mask) + end, div, mask);
    assert s == [s[0]] + s[1..];
  }

  lemma EscapedMore(s: string, end: string, div: char, mask: char)
    requires Ascii(div) && Ascii(mask) && s != ""
    ensures Escaped(s, div, mask) + end == One(s[0], div, mask) + (Escaped(s[1..], div, mask) + end)
  {
    EscapedFront(s[0], s[1..], div, mask);
    assert s == [s[0]] + s[1..];
    Assoc(One(s[0], div, mask), Escaped(s[1..], div, mask), end);
  }

  // Fields, each escaped, with dividers between them.
  function Joined(fields: seq<string>, div: char, mask: char): string
    requires fields != [] && Ascii(div) && Ascii(mask)
  {
    Escaped(fields[0], div, mask) + if |fields| == 1 then "" else [div] + Joined(fields[1..], div, mask)
  }

  // Fields taken off one after the other; None if an escape is cut off.
  function Fields(t: string, div: char, esc: char): Option<seq<string>>
    decreases |t|
  {
    if !Complete(t, div, esc) then None
    else
      var f := Unescaped(t, div, esc);
      if f.rest.None? then Some([f.text])
      else
        RestIsShorter(t, div, esc);
        match Fields(f.rest.value, div, esc)
        case None => None
        case Some(more) => Some([f.text] + more)
  }

  lemma {:induction false} RestIsShorter(t: string, div: char, esc: char)
    requires Complete(t, div, esc)
    ensures Unescaped(t, div, esc).rest.Some? ==> |Unescaped(t, div, esc).rest.value| < |t|
  {
    if t != "" {
      if t[0] == esc {
        RestIsShorter(t[3..], div, esc);
      } else if t[0] != div {
        RestIsShorter(t[1..], div, esc);
      }
    }
  }

  /** Any fields come back from the text they are joined to, whatever is in them, and whatever the
      divider and the mask are, so long as they are not the same character. */
  lemma {:induction false} FieldsBack(fields: seq<string>, div: char, mask: char)
    requires fields != [] && Ascii(div) && Ascii(mask) && div != mask
    ensures Fields(Joined(fields, div, mask), div, mask) == Some(fields)
    decreases |fields|
  {
    if |fields| == 1 {
      FieldBack(fields[0], "", div, mask);
      assert fields == [fields[0]];
    } else {
      var rest := Joined(fields[1..], div, mask);
      FieldBack(fields[0], [div] + rest, div, mask);
      assert ([div] + rest)[1..] == rest;
      FieldsBack(fields[1..], div, mask);
      assert fields == [fields[0]] + fields[1..];
    }
  }

  // ---- In buffers

  // nrealloc(): a larger buffer with the used part of the old one.
  method Grow(buf: array<char>, size: nat, used: nat) returns (r: array<char>)
    requires used <= buf.Length && used <= size
    ensures fresh(r) && r.Length == size && r[..used] == buf[..used]
  {
    r := new char[size](_ => '\0');
    for i := 0 to used
      invariant r[..i] == buf[..i]
    {
      r[i] := buf[i];
    }
  }

  /** str_escape(): the buffer grows in time for the longest code and the terminator. */
  method StrEscape(str: string, div: char, mask: char) returns (buf: array<char>, blen: nat)
    requires Ascii(div) && Ascii(mask)
    ensures blen < buf.Length && buf[..blen] == Escaped(str, div, mask) && buf[blen] == '\0'
  {
    var buflen := 2 * |str|;
    blen := 0;
    buf := new char[buflen + 1](_ => '\0');
    assert str[..0] == "";
    for i := 0 to |str|
      invariant fresh(buf) && blen <= buflen && buf.Length == buflen + 1
      invariant i < |str| ==> buflen >= 4 || (buflen == 2 && blen == 0)
      invariant buf[..blen] == Escaped(str[..i], div, mask)
    {
      if buflen - blen <= 3 {
        buflen := buflen * 2;
        buf := Grow(buf, buflen + 1, blen);
      }
      assert str[..i + 1][..i] == str[..i];
      blen := PutOne(buf, blen, str[i], div, mask);
    }
    assert str[..|str|] == str;
    buf[blen] := '\0';
  }

  // One character; a code is printed with a terminator of its own.
  method PutOne(buf: array<char>, blen0: nat, c: char, div: char, mask: char) returns (blen: nat)
    requires Ascii(div) && Ascii(mask) && blen0 + 3 < buf.Length
    modifies buf
    ensures blen0 < blen <= blen0 + 3 && buf[..blen] == old(buf[..blen0]) + One(c, div, mask)
  {
    if c == div || c == mask {
      buf[blen0], buf[blen0 + 1], buf[blen0 + 2], buf[blen0 + 3] := mask, HexDigit(c as int / 16), HexDigit(c as int % 16), '\0';
      blen := blen0 + 3;
    } else {
      buf[blen0] := c;
      blen := blen0 + 1;
    }
  }

  // Midway: was[s0..s] has been read, and what it stands for is in now[s0..p].
  ghost predicate Midway(was: string, now: string, s0: nat, p: nat, s: nat, z: nat, div: char, esc: char) {
    && |now| == |was| && s0 <= p <= s <= z < |was|
    && now[s..] == was[s..] && now[..s0] == was[..s0]
    && Complete(was[s0..z], div, esc) && Complete(was[s..z], div, esc)
    && var f := Unescaped(was[s..z], div, esc);
       Unescaped(was[s0..z], div, esc) == Field(now[s0..p] + f.text, f.rest)
  }

  lemma PassCode(was: string, now: string, s0: nat, p: nat, s: nat, z: nat, div: char, esc: char)
    requires Midway(was, now, s0, p, s, z, div, esc) && s < z && was[s] == esc
    ensures s + 3 <= z && Midway(was, now[p := Decode(was[s + 1], was[s + 2])], s0, p + 1, s + 3, z, div, esc)
  {
    var rest := was[s..z];
    assert rest[3..] == was[s + 3..z];
    var now' := now[p := Decode(was[s + 1], was[s + 2])];
    assert now'[s0..p + 1] == now[s0..p] + [Decode(rest[1], rest[2])];
    KeepRest(was, now, p, s, s + 3, Decode(was[s + 1], was[s + 2]));
    assert now'[..s0] == now[..s0];
    Assoc(now[s0..p], [Decode(rest[1], rest[2])], Unescaped(was[s + 3..z], div, esc).text);
  }

  lemma PassPlain(was: string, now: string, s0: nat, p: nat, s: nat, z: nat, div: char, esc: char)
    requires Midway(was, now, s0, p, s, z, div, esc) && s < z && was[s] != esc && was[s] != div
    ensures Midway(was, now[p := was[s]], s0, p + 1, s + 1, z, div, esc)
  {
    var rest := was[s..z];
    assert rest[1..] == was[s + 1..z];
    var now' := now[p := was[s]];
    assert now'[s0..p + 1] == now[s0..p] + [rest[0]];
    KeepRest(was, now, p, s, s + 1, was[s]);
    assert now'[..s0] == now[..s0];
    Assoc(now[s0..p], [rest[0]], Unescaped(was[s + 1..z], div, esc).text);
  }

  lemma KeepRest(was: string, now: string, p: nat, s: nat, s': nat, c: char)
    requires |now| == |was| && p <= s < s' <= |was| && now[s..] == was[s..]
    ensures now[p := c][s'..] == was[s'..]
  {
    forall k | s' <= k < |was| ensures now[p := c][k] == was[k] {
      assert now[s..][k - s] == was[s..][k - s];
    }
  }

  lemma Unread(was: string, now: string, s: nat, k: nat)
    requires |now| == |was| && s <= |was| && now[s..] == was[s..]
    ensures s <= k < |was| ==> now[k] == was[k]
  {
    assert s <= k < |was| ==> now[s..][k - s] == was[s..][k - s];
  }

  // The field is complete: it ends at p, and next is where the rest begins.
  ghost predicate Ended(was: string, now: string, s0: nat, z: nat, next: Option<nat>, f: Field) {
    var e := s0 + |f.text|;
    && |now| == |was| && s0 <= e <= z < |was| && now[s0..e] == f.text && now[e] == '\0' && now[..s0] == was[..s0]
    && (f.rest.None? <==> next.None?)
    && (next.Some? ==> e < next.value <= z && was[next.value..z] == f.rest.value && now[next.value..] == was[next.value..])
  }

  lemma MeetDivider(was: string, now: string, s0: nat, p: nat, s: nat, z: nat, div: char, esc: char)
    requires Midway(was, now, s0, p, s, z, div, esc) && s < z && was[s] == div && was[s] != esc
    ensures Ended(was, now[p := '\0'][s := '\0'], s0, z, Some(s + 1), Unescaped(was[s0..z], div, esc))
  {
    var rest := was[s..z];
    assert rest[1..] == was[s + 1..z] && now[s0..p] + "" == now[s0..p];
    var now' := now[p := '\0'][s := '\0'];
    assert now'[s0..p] == now[s0..p] && now'[..s0] == now[..s0];
    KeepRest(was, now, p, s, s + 1, '\0');
    assert now'[s + 1..] == now[p := '\0'][s + 1..];
  }

  lemma MeetEnd(was: string, now: string, s0: nat, p: nat, z: nat, div: char, esc: char)
    requires Midway(was, now, s0, p, z, z, div, esc)
    ensures Ended(was, now[p := '\0'], s0, z, None, Unescaped(was[s0..z], div, esc))
  {
    assert was[z..z] == "" && now[s0..p] + "" == now[s0..p];
    assert now[p := '\0'][s0..p] == now[s0..p] && now[p := '\0'][..s0] == now[..s0];
  }

  /** strchr_unescape(), on the text from s0 to its terminator at z: the field is written over the
      text, never past what has been read, and what follows the divider is left alone. */
  method StrchrUnescape(a: array<char>, s0: nat, ghost z: nat, div: char, esc: char) returns (next: Option<nat>)
    requires s0 <= z < a.Length && a[z] == '\0' && forall k :: s0 <= k < z ==> a[k] != '\0'
    requires Complete(a[s0..z], div, esc)
    modifies a
    ensures Ended(old(a[..]), a[..], s0, z, next, Unescaped(old(a[s0..z]), div, esc))
  {
    ghost var was := a[..];
    var s: nat, p: nat := s0, s0;
    assert was[s0..z] == a[s0..z] && was[s0..s0] == "";
    assert "" + Unescaped(was[s0..z], div, esc).text == Unescaped(was[s0..z], div, esc).text;
    while a[s] != '\0'
      invariant Midway(was, a[..], s0, p, s, z, div, esc)
      decreases z - s
    {
      Unread(was, a[..], s, s);
      if a[s] != esc && a[s] == div {
        Divide(a, was, s0, p, s, z, div, esc);
        return Some(s + 1);
      }
      s := Pass(a, was, s0, p, s, z, div, esc);
      p := p + 1;
    }
    Unread(was, a[..], s, s);
    Finish(a, was, s0, p, z, div, esc);
    return None;
  }

  // The divider, and the end of the text written so far, become terminators.
  method Divide(a: array<char>, ghost was: string, ghost s0: nat, p: nat, s: nat, ghost z: nat, ghost div: char, ghost esc: char)
    requires Midway(was, a[..], s0, p, s, z, div, esc) && s < z && was[s] == div && div != esc
    modifies a
    ensures Ended(was, a[..], s0, z, Some(s + 1), Unescaped(was[s0..z], div, esc))
  {
    MeetDivider(was, a[..], s0, p, s, z, div, esc);
    Store(a, p, '\0');
    Store(a, s, '\0');
  }

  method Finish(a: array<char>, ghost was: string, ghost s0: nat, p: nat, ghost z: nat, ghost div: char, ghost esc: char)
    requires Midway(was, a[..], s0, p, z, z, div, esc)
    modifies a
    ensures Ended(was, a[..], s0, z, None, Unescaped(was[s0..z], div, esc))
  {
    MeetEnd(was, a[..], s0, p, z, div, esc);
    Store(a, p, '\0');
  }

  // One character of the field, written over what has been read.
  method Pass(a: array<char>, ghost was: string, ghost s0: nat, p: nat, s: nat, ghost z: nat, ghost div: char, esc: char)
    returns (s': nat)
    requires Midway(was, a[..], s0, p, s, z, div, esc) && s < z && (was[s] == esc || was[s] != div)
    modifies a
    ensures Midway(was, a[..], s0, p + 1, s', z, div, esc) && s < s'
  {
    Unread(was, a[..], s, s);
    if a[s] == esc {
      PassCode(was, a[..], s0, p, s, z, div, esc);
      Unread(was, a[..], s, s + 1);
      Unread(was, a[..], s, s + 2);
      Store(a, p, Decode(a[s + 1], a[s + 2]));
      return s + 3;
    }
    PassPlain(was, a[..], s0, p, s, z, div, esc);
    Store(a, p, a[s]);
    return s + 1;
  }

  method Store(a: array<char>, p: nat, c: char)
    requires p < a.Length
    modifies a
    ensures a[..] == old(a[..])[p := c]
  {
    a[p] := c;
  }
}
