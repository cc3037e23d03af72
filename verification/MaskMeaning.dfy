/** misc.c: what the masks built by maskaddr() stand for, part by part. */
module MaskMeaning {
  import opened Options
  import opened Chars
  import opened Glob
  import opened MaskAddr

  predicate BeginsWith(s: string, front: string) {
    |front| <= |s| && SameText(front, s[..|front|])
  }

  predicate EndsWith(s: string, tail: string) {
    |tail| <= |s| && SameText(tail, s[|s| - |tail|..])
  }

  // Each digit may have become any character.
  predicate SameButDigits(a: string, b: string) {
    |a| == |b| && forall i :: 0 <= i < |a| ==> IsDigit(a[i]) || SameLetter(a[i], b[i])
  }

  // Some front of s, or some end of it, is matched.
  ghost predicate BeginsLike(s: string, front: string) {
    exists k :: 0 <= k <= |s| && Matches(front, s[..k])
  }

  ghost predicate EndsLike(s: string, tail: string) {
    exists k :: 0 <= k <= |s| && Matches(tail, s[k..])
  }

  // b is like a[p..], but each digit may have become any character, or each run of digits any text,
  // also an empty one.
  ghost predicate LikeButDigits(a: string, p: nat, each: bool, b: string)
    requires p <= |a|
    decreases |a| - p
  {
    if p == |a| then b == ""
    else if a[p] == STAR then exists k :: 0 <= k <= |b| && LikeButDigits(a, p + 1, each, b[k..])
    else if IsDigit(a[p]) && !each then exists k :: 0 <= k <= |b| && LikeButDigits(a, RunEnd(a, p), each, b[k..])
    else b != "" && (a[p] == ANY || IsDigit(a[p]) || SameLetter(a[p], b[0])) && LikeButDigits(a, p + 1, each, b[1..])
  }

  function RunEnd(a: string, p: nat): (q: nat)
    requires p < |a| && IsDigit(a[p])
    ensures p < q <= |a| && (forall i :: p <= i < q ==> IsDigit(a[i])) && (q < |a| ==> !IsDigit(a[q]))
    decreases |a| - p
  {
    if p + 1 < |a| && IsDigit(a[p + 1]) then RunEnd(a, p + 1) else p + 1
  }

  // A host of figures and dots is taken for an IPv4 address.
  predicate FiguresAndDots(host: string) {
    forall i :: 0 <= i < |host| ==> host[i] in "0123456789."
  }

  lemma NumericIs(host: string)
    ensures Numeric(host) <==> FiguresAndDots(host)
  {
  }

  /** The hosts for which the mask of a host stands, by mask type. */
  ghost predicate HostKept(host: string, kind: int, other: string) {
    var d := TruncMod(kind, 5);
    var colon, dot := Last(host, ':'), Last(host, '.');
    if kind >= 30 || host == "" then
      true
    else if colon.Some? && d > 2 then
      var inner := Last(host[colon.value..], '.');
      BeginsLike(other, host[..colon.value + 1 + if inner.Some? then inner.value else 0])
    else if colon.None? && !FiguresAndDots(host) && kind >= 10 then
      LikeButDigits(host, 0, kind < 20, other)
    else if d > 2 && dot.Some? then
      if FiguresAndDots(host) then BeginsLike(other, host[..dot.value + 1])
      else if Count('.', host[1..]) < 2 then Matches(host, other)
      else EndsLike(other, host[Domain(host, dot.value)..])
    else
      Matches(host, other)
  }

  lemma PrefixMask(p: string, s: string)
    ensures Matches(p + "*", s) <==> BeginsLike(s, p)
  {
    MatchesSplit(p, "*", s);
    forall k | 0 <= k <= |s| ensures Matches("*", s[k..]) {
      StarsMatchAll("*", s[k..]);
    }
  }

  lemma SuffixMask(p: string, s: string)
    ensures Matches("*" + p, s) <==> EndsLike(s, p)
  {
    assert ("*" + p)[1..] == p;
  }

  lemma {:induction false} RunSkipped(h: string, p: nat, q: nat)
    requires p <= q <= |h| && (forall i :: p <= i < q ==> IsDigit(h[i])) && (q < |h| ==> !IsDigit(h[q]))
    ensures Replaced(h, p, false, true) == Replaced(h, q, false, false)
    decreases q - p
  {
    if p < q {
      RunSkipped(h, p + 1, q);
      assert "" + Replaced(h, p + 1, false, true) == Replaced(h, p + 1, false, true);
    }
  }

  lemma {:induction false} DigitMask(h: string, p: nat, each: bool, other: string)
    requires p <= |h|
    ensures Matches(Replaced(h, p, each, false), other) <==> LikeButDigits(h, p, each, other)
    decreases |h| - p
  {
    if p < |h| {
      var r := Replaced(h, p, each, false);
      if h[p] == STAR || (IsDigit(h[p]) && !each) {
        var q := if h[p] == STAR then p + 1 else RunEnd(h, p);
        if h[p] != STAR {
          RunSkipped(h, p + 1, q);
        }
        assert r == "*" + Replaced(h, q, each, false);
        forall k | 0 <= k <= |other|
          ensures Matches(r[1..], other[k..]) <==> LikeButDigits(h, q, each, other[k..])
        {
          DigitMask(h, q, each, other[k..]);
        }
      } else {
        assert r[1..] == Replaced(h, p + 1, each, false);
        if other != "" {
          DigitMask(h, p + 1, each, other[1..]);
        }
      }
    }
  }

  lemma NetMask(host: string, dot: nat, other: string)
    requires dot < |host| && host[dot] == '.'
    ensures Matches(host[..dot] + ".*", other) <==> BeginsLike(other, host[..dot + 1])
  {
    assert host[..dot] + ".*" == host[..dot + 1] + "*";
    PrefixMask(host[..dot + 1], other);
  }

  /** The mask of a host matches exactly the hosts it stands for, also when the host is a mask itself. */
  lemma HostMaskMeaning(host: string, kind: int, other: string)
    ensures Matches(HostMask(host, kind), other) <==> HostKept(host, kind, other)
  {
    var colon, dot := Last(host, ':'), Last(host, '.');
    NumericIs(host);
    if kind >= 30 || host == "" {
      StarsMatchAll("*", other);
    } else if colon.Some? && TruncMod(kind, 5) > 2 {
      var inner := Last(host[colon.value..], '.');
      PrefixMask(host[..colon.value + 1 + if inner.Some? then inner.value else 0], other);
    } else if colon.None? && !Numeric(host) && kind >= 10 {
      DigitMask(host, 0, kind < 20, other);
    } else if TruncMod(kind, 5) > 2 && dot.Some? {
      DottedMask(host, kind, dot.value, other);
    }
  }

  lemma DottedMask(host: string, kind: int, dot: nat, other: string)
    requires host != "" && Last(host, '.') == Some(dot) && kind < 30 && TruncMod(kind, 5) > 2 && Last(host, ':').None?
    requires Numeric(host) || kind < 10
    ensures Matches(HostMask(host, kind), other) <==> HostKept(host, kind, other)
  {
    NumericIs(host);
    if Numeric(host) {
      NetMask(host, dot, other);
    } else if Count('.', host[1..]) >= 2 {
      SuffixMask(host[Domain(host, dot)..], other);
    }
  }

  // ---- Texts without wildcards

  lemma PlainBegins(p: string, s: string)
    requires Plain(p)
    ensures BeginsLike(s, p) <==> BeginsWith(s, p)
  {
    forall k | 0 <= k <= |s| ensures Matches(p, s[..k]) <==> SameText(p, s[..k]) {
      PlainMatches(p, s[..k]);
    }
  }

  lemma PlainEnds(p: string, s: string)
    requires Plain(p)
    ensures EndsLike(s, p) <==> EndsWith(s, p)
  {
    forall k | 0 <= k <= |s| ensures Matches(p, s[k..]) <==> SameText(p, s[k..]) {
      PlainMatches(p, s[k..]);
    }
    if EndsWith(s, p) {
      assert Matches(p, s[|s| - |p|..]);
    }
  }

  lemma {:induction false} PlainDigits(h: string, p: nat, other: string)
    requires Plain(h) && p <= |h|
    ensures LikeButDigits(h, p, true, other) <==> SameButDigits(h[p..], other)
    decreases |h| - p
  {
    if p < |h| && other != "" {
      PlainDigits(h, p + 1, other[1..]);
      assert h[p..] == [h[p]] + h[p + 1..] && other == [other[0]] + other[1..];
      SameMore(h[p], h[p + 1..], other[0], other[1..]);
    }
  }

  lemma SameMore(c: char, a: string, d: char, b: string)
    ensures SameButDigits([c] + a, [d] + b) <==> (IsDigit(c) || SameLetter(c, d)) && SameButDigits(a, b)
  {
    if SameButDigits([c] + a, [d] + b) {
      assert ([c] + a)[0] == c && ([d] + b)[0] == d;
      forall i | 0 <= i < |a| ensures IsDigit(a[i]) || SameLetter(a[i], b[i]) {
        assert ([c] + a)[i + 1] == a[i] && ([d] + b)[i + 1] == b[i];
      }
    }
  }

  /** Without wildcards, to be like a text is to be that text in either case, up to its digits. */
  lemma PlainMeaning(p: string, s: string)
    requires Plain(p)
    ensures Matches(p, s) <==> SameText(p, s)
    ensures BeginsLike(s, p) <==> BeginsWith(s, p)
    ensures EndsLike(s, p) <==> EndsWith(s, p)
    ensures LikeButDigits(p, 0, true, s) <==> SameButDigits(p, s)
  {
    PlainMatches(p, s);
    PlainBegins(p, s);
    PlainEnds(p, s);
    PlainDigits(p, 0, s);
    assert p[0..] == p;
  }

  // The user as kept by mask types that drop a leading decoration.
  function Undecorated(u: string): string {
    if u != "" && u[0] in "~+-^=" then u[1..] else u
  }

  /** The users for which the user part of the mask stands: everyone for types ending in 2, 4, 7
      and 9 and for an address without a user, users like that one for 0 and 5, and users ending like it
      otherwise. */
  lemma UserMaskMeaning(a: Address, kind: int, other: string)
    ensures var d := TruncMod(kind, 5);
            Matches(UserMask(a, kind), other) <==>
            (a.user.None? || d == 2 || d == 4 ||
             (if d == 0 then Matches(a.user.value, other) else EndsLike(other, Undecorated(a.user.value))))
  {
    StarsMatchAll("*", other);
    if a.user.Some? {
      SuffixMask(Undecorated(a.user.value), other);
    }
  }

  /** The nicks for which the nick part of the mask stands: everyone unless the type ends in 5 to 9. */
  lemma NickMaskMeaning(a: Address, kind: int, other: string)
    ensures Matches(NickMask(a, kind), other) <==>
            a.nick.None? || TruncMod(kind, 10) < 5 || Matches(a.nick.value, other)
  {
    StarsMatchAll("*", other);
  }

  // ---- The mask as a whole

  predicate Free(s: string) {
    '!' !in s && '@' !in s
  }

  // A separator in the mask stands for the only one in the text.
  lemma SeparatorSplits(m: string, c: char, rest: string, s: string, tail: string)
    requires (c == '!' || c == '@') && c !in s && c !in tail
    ensures Matches(m + ([c] + rest), s + ([c] + tail)) <==> Matches(m, s) && Matches(rest, tail)
  {
    var text := s + ([c] + tail);
    MatchesSplit(m, [c] + rest, text);
    forall k | 0 <= k <= |text|
      ensures Matches([c] + rest, text[k..]) <==> k == |s| && Matches(rest, tail)
    {
      LetterFirst(c, rest, text[k..]);
      if k < |s| {
        assert text[k..][0] == s[k];
      } else if k == |s| {
        assert text[k..] == [c] + tail;
      } else if k < |text| {
        assert text[k..][0] == tail[k - |s| - 1];
      }
    }
    assert text[..|s|] == s;
  }

  lemma LetterFirst(c: char, rest: string, text: string)
    requires c == '!' || c == '@'
    ensures Matches([c] + rest, text) <==> text != "" && text[0] == c && Matches(rest, text[1..])
  {
    assert ([c] + rest)[1..] == rest;
  }

  lemma ThreeParts(n: string, u: string, h: string, nick: string, user: string, host: string)
    requires Free(nick) && Free(user) && Free(host)
    ensures Matches(n + ("!" + (u + ("@" + h))), nick + ("!" + (user + ("@" + host)))) <==>
            Matches(n, nick) && Matches(u, user) && Matches(h, host)
  {
    SeparatorSplits(u, '@', h, user, host);
    assert forall i :: 0 <= i < |user + ("@" + host)| ==> (user + ("@" + host))[i] != '!';
    SeparatorSplits(n, '!', u + ("@" + h), nick, user + ("@" + host));
  }

  /** The mask built for an address matches exactly the addresses of which nick, user and host are each
      among those that its parts stand for. */
  lemma MaskStandsFor(s: string, kind: int, nick: string, user: string, host: string)
    requires Free(nick) && Free(user) && Free(host)
    ensures var a, d := Split(s), TruncMod(kind, 5);
            Matches(MaskOf(s, kind), nick + ("!" + (user + ("@" + host)))) <==>
            && (a.nick.None? || TruncMod(kind, 10) < 5 || Matches(a.nick.value, nick))
            && (a.user.None? || d == 2 || d == 4 ||
                (if d == 0 then Matches(a.user.value, user) else EndsLike(user, Undecorated(a.user.value))))
            && HostKept(a.host, kind, host)
  {
    var a := Split(s);
    ThreeParts(NickMask(a, kind), UserMask(a, kind), HostMask(a.host, kind), nick, user, host);
    NickMaskMeaning(a, kind, nick);
    UserMaskMeaning(a, kind, user);
    HostMaskMeaning(a.host, kind, host);
  }

  // ---- How the address is read

  /** An address is cut at the first '!' that has an '@' behind it and at the first '@' behind that, or else
      at the first '@', or not at all. */
  lemma SplitFull(nick: string, user: string, host: string)
    requires '!' !in nick && '@' !in user
    ensures Split(nick + ("!" + (user + ("@" + host)))) == Address(Some(nick), Some(user), host)
  {
    var s, i, at := nick + ("!" + (user + ("@" + host))), |nick|, |nick| + 1 + |user|;
    FullAt(nick, user, host);
    assert First(s, '!') == Some(i);
    assert FirstFrom(s, '@', i) == Some(at);
  }

  lemma FullAt(nick: string, user: string, host: string)
    ensures var s, i, at := nick + ("!" + (user + ("@" + host))), |nick|, |nick| + 1 + |user|;
            && |s| == at + 1 + |host| && s[i] == '!' && s[at] == '@'
            && s[..i] == nick && s[i + 1..at] == user && s[at + 1..] == host
            && (forall k :: 0 <= k < i ==> s[k] == nick[k])
            && (forall k :: i < k < at ==> s[k] == user[k - i - 1])
  {
  }

  lemma SplitShort(user: string, host: string)
    requires '!' !in user && '@' !in user && ('!' in host ==> '@' !in host)
    ensures Split(user + ("@" + host)) == Address(None, Some(user), host)
  {
    var s := user + ("@" + host);
    assert s[|user|] == '@' && forall k :: 0 <= k < |user| ==> s[k] == user[k];
    assert First(s, '@') == Some(|user|);
    assert s[..|user|] == user && s[|user| + 1..] == host;
    assert forall k :: |user| < k < |s| ==> s[k] == host[k - |user| - 1];
  }

  lemma SplitNone(s: string)
    requires '@' !in s
    ensures Split(s) == Address(None, None, s)
  {
  }

  // ---- Which part of a host name is kept

  lemma {:induction false} CountJoin(c: char, a: string, b: string)
    ensures Count(c, a + b) == Count(c, a) + Count(c, b)
  {
    if a == "" {
      assert a + b == b;
    } else {
      assert (a + b)[1..] == a[1..] + b;
      CountJoin(c, a[1..], b);
    }
  }

  lemma {:induction false} CountNone(c: char, s: string)
    ensures Count(c, s) == 0 <==> c !in s
  {
    if s != "" {
      CountNone(c, s[1..]);
      assert s == [s[0]] + s[1..];
    }
  }

  // A name of three labels or more: its dots behind the first character, and the first two of them.
  lemma NameCount(a: string, b: string, rest: string)
    requires a != "" && '.' !in a && '.' !in b
    ensures Count('.', (a + ("." + (b + ("." + rest))))[1..]) == 2 + Count('.', rest)
  {
    var tail := b + ("." + rest);
    assert (a + ("." + tail))[1..] == a[1..] + ("." + tail);
    CountJoin('.', a[1..], "." + tail);
    CountJoin('.', ".", tail);
    CountJoin('.', b, "." + rest);
    CountJoin('.', ".", rest);
    CountNone('.', a[1..]);
    CountNone('.', b);
  }

  // A name, place by place.
  predicate IsNamed(host: string, a: string, b: string, rest: string) {
    var second := |a| + 1 + |b|;
    && |host| == second + 1 + |rest| && host[|a|] == '.' && host[second] == '.'
    && (forall k :: 0 <= k < |a| ==> host[k] == a[k])
    && (forall k :: |a| < k < second ==> host[k] == b[k - |a| - 1])
    && (forall k :: second < k < |host| ==> host[k] == rest[k - second - 1])
  }

  lemma NameAt(a: string, b: string, rest: string)
    ensures var host := a + ("." + (b + ("." + rest)));
            && IsNamed(host, a, b, rest)
            && host[|a|..] == "." + b + "." + rest && host[|a| + 1 + |b|..] == "." + rest
  {
  }

  lemma FoundAt(s: string, c: char, from: nat, i: nat)
    requires from <= i < |s| && s[i] == c && forall k :: from <= k < i ==> s[k] != c
    ensures FirstFrom(s, c, from) == Some(i)
  {
  }

  // Where the first two dots are, and how many follow.
  predicate Dots(host: string, first: nat, second: nat, more: nat) {
    && first < second < |host| && Count('.', host[1..]) == 2 + more
    && host[first] == '.' && host[second] == '.'
    && forall k :: 0 <= k < second && k != first ==> host[k] != '.'
  }

  lemma NameDots(host: string, a: string, b: string, rest: string)
    requires a != "" && '.' !in a && '.' !in b && IsNamed(host, a, b, rest)
    ensures Dots(host, |a|, |a| + 1 + |b|, Count('.', rest))
  {
    NamedIs(host, a, b, rest);
    NameCount(a, b, rest);
  }

  lemma NamedIs(host: string, a: string, b: string, rest: string)
    requires IsNamed(host, a, b, rest)
    ensures host == a + ("." + (b + ("." + rest)))
  {
  }

  // Where the last label begins.
  lemma LastDot(a: string, b: string, c: string, d: string)
    requires '.' !in d
    ensures var host := a + ("." + (b + ("." + (c + "." + d))));
            Last(host, '.') == Some(|host| - 1 - |d|)
  {
    var host := a + ("." + (b + ("." + (c + "." + d))));
    var at := |host| - 1 - |d|;
    assert host[at] == '.' && forall k :: at < k < |host| ==> host[k] == d[k - at - 1];
  }

  predicate IsName(host: string, kind: int) {
    ':' !in host && !FiguresAndDots(host) && kind < 10 && TruncMod(kind, 5) > 2
  }

  // The end that is kept begins at the first or at the second dot.
  lemma KeptFrom(host: string, kind: int, last: nat, first: nat, second: nat, more: nat)
    requires IsName(host, kind) && Last(host, '.') == Some(last) && Dots(host, first, second, more)
    ensures HostMask(host, kind) == "*" + host[if more > 1 || (more == 1 && |host| - last > 3) then second else first..]
  {
    FoundAt(host, '.', 0, first);
    FoundAt(host, '.', first + 1, second);
    MaskOfName(host, kind, last);
    DomainIs(host, last, first, second);
  }

  lemma StarFirst(b: string, rest: string)
    ensures "*" + ("." + rest) == "*." + rest && "*" + ("." + b + "." + rest) == "*." + b + "." + rest
  {
  }

  lemma MaskOfName(host: string, kind: int, last: nat)
    requires host != "" && IsName(host, kind) && Last(host, '.') == Some(last) && Count('.', host[1..]) >= 2
    ensures HostMask(host, kind) == "*" + host[Domain(host, last)..]
  {
    NumericIs(host);
  }

  lemma DomainIs(host: string, last: nat, first: nat, second: nat)
    requires host != "" && last < |host| && Count('.', host[1..]) >= 2
    requires first < |host| && FirstFrom(host, '.', 0) == Some(first) && FirstFrom(host, '.', first + 1) == Some(second)
    ensures var dots := Count('.', host[1..]);
            Domain(host, last) == if dots > 3 || (dots == 3 && |host| - last > 3) then second else first
  {
  }

  /** Of a name of three labels the first one is masked; of one of four labels the first two, unless the
      last one has two letters or less; of longer ones the first two. */
  lemma ThreeLabels(a: string, b: string, c: string, kind: int)
    requires a != "" && '.' !in a && '.' !in b && '.' !in c && IsName(a + ("." + (b + ("." + c))), kind)
    ensures HostMask(a + ("." + (b + ("." + c))), kind) == "*." + b + "." + c
  {
    CountNone('.', c);
    NameAt(a, b, c);
    StarFirst(b, c);
    var host := a + ("." + (b + ("." + c)));
    NameDots(host, a, b, c);
    KeptFrom(host, kind, Last(host, '.').value, |a|, |a| + 1 + |b|, Count('.', c));
  }

  lemma FourLabels(a: string, b: string, c: string, d: string, kind: int)
    requires a != "" && '.' !in a && '.' !in b && '.' !in c && '.' !in d
    requires IsName(a + ("." + (b + ("." + (c + "." + d)))), kind)
    ensures HostMask(a + ("." + (b + ("." + (c + "." + d)))), kind) ==
            if |d| > 2 then "*." + (c + "." + d) else "*." + b + "." + (c + "." + d)
  {
    CountJoin('.', c + ".", d);
    CountJoin('.', c, ".");
    CountNone('.', c);
    CountNone('.', d);
    LastDot(a, b, c, d);
    StarFirst(b, c + "." + d);
    NameAt(a, b, c + "." + d);
    var host := a + ("." + (b + ("." + (c + "." + d))));
    NameDots(host, a, b, c + "." + d);
    KeptFrom(host, kind, Last(host, '.').value, |a|, |a| + 1 + |b|, Count('.', c + "." + d));
  }

  lemma MoreLabels(a: string, b: string, rest: string, kind: int)
    requires a != "" && '.' !in a && '.' !in b && Count('.', rest) > 1 && IsName(a + ("." + (b + ("." + rest))), kind)
    ensures HostMask(a + ("." + (b + ("." + rest))), kind) == "*." + rest
  {
    SecondOfName(a, b, rest, kind);
    NameEnds(a, b, rest);
    StarFirst(b, rest);
  }

  lemma NameEnds(a: string, b: string, rest: string)
    ensures var host := a + ("." + (b + ("." + rest)));
            |a| + 1 + |b| < |host| && host[|a| + 1 + |b|..] == "." + rest
  {
    NameAt(a, b, rest);
  }

  lemma SecondOfName(a: string, b: string, rest: string, kind: int)
    requires a != "" && '.' !in a && '.' !in b && Count('.', rest) > 1 && IsName(a + ("." + (b + ("." + rest))), kind)
    ensures var host := a + ("." + (b + ("." + rest)));
            |a| + 1 + |b| < |host| && HostMask(host, kind) == "*" + host[|a| + 1 + |b|..]
  {
    DotsOfName(a, b, rest);
    KeptSecond(a + ("." + (b + ("." + rest))), kind, |a|, |a| + 1 + |b|, Count('.', rest));
  }

  lemma DotsOfName(a: string, b: string, rest: string)
    requires a != "" && '.' !in a && '.' !in b
    ensures Dots(a + ("." + (b + ("." + rest))), |a|, |a| + 1 + |b|, Count('.', rest))
  {
    NameAt(a, b, rest);
    NameDots(a + ("." + (b + ("." + rest))), a, b, rest);
  }

  lemma KeptSecond(host: string, kind: int, first: nat, second: nat, more: nat)
    requires IsName(host, kind) && Dots(host, first, second, more) && more > 1
    ensures HostMask(host, kind) == "*" + host[second..]
  {
    KeptFrom(host, kind, Last(host, '.').value, first, second, more);
  }
}
