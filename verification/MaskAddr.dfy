/** misc.c: maskaddr() builds a hostmask from an address. */
module MaskAddr {
  import opened Options
  import opened Chars
  import opened Glob

  // The % of C, which truncates toward zero.
  function TruncMod(a: int, b: int): int
    requires b > 0
  {
    if a >= 0 then a % b else -(-a % b)
  }

  lemma TruncModIs(a: int, b: int)
    requires b > 0
    ensures (a >= 0 ==> 0 <= TruncMod(a, b) < b) && (a <= 0 ==> -b < TruncMod(a, b) <= 0)
    ensures exists q :: a == b * q + TruncMod(a, b)
  {
    if a >= 0 {
      assert a == b * (a / b) + TruncMod(a, b);
    } else {
      var q := -(-a / b);
      assert -a == b * (-a / b) + -a % b;
      assert b * q == -(b * (-a / b));
      assert a == b * q + TruncMod(a, b);
    }
  }

  const DECORATION := "~+-^="

  // An address read as nick!user@host, user@host or just a host.
  datatype Address = Address(nick: Option<string>, user: Option<string>, host: string)

  // The first '!' with an '@' behind it separates nick and user.
  predicate HasNick(s: string) {
    First(s, '!').Some? && FirstFrom(s, '@', First(s, '!').value).Some?
  }

  function Split(s: string): Address {
    if HasNick(s) then
      var bang := First(s, '!').value;
      var at := FirstFrom(s, '@', bang).value;
      Address(Some(s[..bang]), Some(s[bang + 1..at]), s[at + 1..])
    else match First(s, '@')
      case Some(at) => Address(None, Some(s[..at]), s[at + 1..])
      case None => Address(None, None, s)
  }

  function NickMask(a: Address, kind: int): string {
    if a.nick.None? || TruncMod(kind, 10) < 5 then "*" else a.nick.value
  }

  function UserMask(a: Address, kind: int): string {
    var d := TruncMod(kind, 5);
    match a.user
    case None => "*"
    case Some(u) =>
      if d == 2 || d == 4 then "*"
      else if d == 0 then u
      else "*" + if u != "" && u[0] in DECORATION then u[1..] else u
  }

  predicate Numeric(host: string) {
    forall i :: 0 <= i < |host| ==> IsDigit(host[i]) || host[i] == '.'
  }

  // The text from p on with digits replaced one by one with '?', or run by run with '*'.
  function Replaced(h: string, p: nat, each: bool, inRun: bool): string
    requires p <= |h|
    decreases |h| - p
  {
    if p == |h| then ""
    else if !IsDigit(h[p]) then [h[p]] + Replaced(h, p + 1, each, false)
    else if each then "?" + Replaced(h, p + 1, each, false)
    else (if inRun then "" else "*") + Replaced(h, p + 1, each, true)
  }

  // Where the part of a host name begins that is kept: at its first dot, or at its second one
  // when the name is long enough.
  function Domain(host: string, last: nat): (at: nat)
    requires |host| > 0 && last < |host| && Count('.', host[1..]) >= 2
    ensures at < |host| && host[at] == '.'
  {
    var dots := Count('.', host[1..]);
    CountFrom('.', host, 1);
    assert host[0..] == host;
    var u := FirstFrom(host, '.', 0).value;
    if dots > 3 || (dots == 3 && |host| - last > 3)
    then SecondDot(host, u); FirstFrom(host, '.', u + 1).value
    else u
  }

  function HostMask(host: string, kind: int): string {
    var d := TruncMod(kind, 5);
    var colon, dot := Last(host, ':'), Last(host, '.');
    if kind >= 30 then
      "*"
    else if colon.Some? && d > 2 then
      var inner := Last(host[colon.value..], '.');
      host[..colon.value + 1 + if inner.Some? then inner.value else 0] + "*"
    else if colon.None? && !Numeric(host) && kind >= 10 then
      Replaced(host, 0, kind < 20, false)
    else if d > 2 && dot.Some? then
      if Numeric(host) then host[..dot.value] + ".*"
      else if Count('.', host[1..]) < 2 then host
      else "*" + host[Domain(host, dot.value)..]
    else if host == "" then
      "*"
    else
      host
  }

  function MaskOf(s: string, kind: int): string {
    var a := Split(s);
    NickMask(a, kind) + ("!" + (UserMask(a, kind) + ("@" + HostMask(a.host, kind))))
  }

  lemma {:induction false} CountFrom(c: char, s: string, from: nat)
    requires from <= |s|
    ensures Count(c, s[from..]) > 0 <==> FirstFrom(s, c, from).Some?
    decreases |s| - from
  {
    if from < |s| {
      assert s[from..][1..] == s[from + 1..];
      CountFrom(c, s, from + 1);
    }
  }

  lemma {:induction false} CountAfter(c: char, s: string, from: nat)
    requires from <= |s| && FirstFrom(s, c, from).Some?
    ensures Count(c, s[from..]) == 1 + Count(c, s[FirstFrom(s, c, from).value + 1..])
    decreases |s| - from
  {
    assert s[from..][1..] == s[from + 1..];
    if s[from] != c {
      CountAfter(c, s, from + 1);
    }
  }

  lemma SecondDot(host: string, u: nat)
    requires |host| > 0 && Count('.', host[1..]) >= 2 && FirstFrom(host, '.', 0) == Some(u)
    ensures FirstFrom(host, '.', u + 1).Some?
  {
    CountFrom('.', host, u + 1);
    if u > 0 {
      CountAfter('.', host, 1);
    }
  }

  lemma Join(a: string, b: string, x: string, y: string)
    requires Matches(a, x) && Matches(b, y)
    ensures Matches(a + b, x + y)
  {
    assert (x + y)[..|x|] == x && (x + y)[|x|..] == y;
    MatchesSplit(a, b, x + y);
  }

  lemma StarThen(tail: string, text: string, k: nat)
    requires k <= |text| && Matches(tail, text[k..])
    ensures Matches("*" + tail, text)
  {
    assert ("*" + tail)[1..] == tail;
  }

  lemma {:induction false} ReplacedMatches(h: string, p: nat, each: bool)
    requires p <= |h|
    ensures Matches(Replaced(h, p, each, false), h[p..])
    ensures !each ==> Matches("*" + Replaced(h, p, each, true), h[p..])
    decreases |h| - p
  {
    if p == |h| {
      StarThen("", h[p..], 0);
    } else {
      ReplacedMatches(h, p + 1, each);
      assert h[p..] == [h[p]] + h[p + 1..];
      var rest := Replaced(h, p + 1, each, IsDigit(h[p]) && !each);
      MatchesSelf([h[p]]);
      if !IsDigit(h[p]) {
        Join([h[p]], rest, [h[p]], h[p + 1..]);
        assert h[p..][0..] == h[p..];
        StarThen([h[p]] + rest, h[p..], 0);
      } else if each {
        assert "?"[1..] == "";
        Join("?", rest, [h[p]], h[p + 1..]);
      } else {
        StarGrows(rest, h[p + 1..], [h[p]]);
        assert "" + rest == rest;
      }
    }
  }

  lemma StarGrows(tail: string, text: string, front: string)
    requires Matches("*" + tail, text)
    ensures Matches("*" + tail, front + text)
  {
    assert ("*" + tail)[1..] == tail;
    var k :| 0 <= k <= |text| && Matches(("*" + tail)[1..], text[k..]);
    assert (front + text)[|front| + k..] == text[k..];
    StarThen(tail, front + text, |front| + k);
  }

  lemma AllReplaced(host: string, each: bool)
    ensures Matches(Replaced(host, 0, each, false), host)
  {
    ReplacedMatches(host, 0, each);
    assert host[0..] == host;
  }

  lemma {:induction false} HostMaskMatches(host: string, kind: int)
    ensures Matches(HostMask(host, kind), host)
  {
    var colon, dot := Last(host, ':'), Last(host, '.');
    if kind >= 30 || host == "" {
      StarsMatchAll("*", host);
    } else if colon.Some? && TruncMod(kind, 5) > 2 {
      var inner := Last(host[colon.value..], '.');
      PrefixMatches(host, colon.value + 1 + if inner.Some? then inner.value else 0);
    } else if colon.None? && !Numeric(host) && kind >= 10 {
      AllReplaced(host, kind < 20);
    } else if TruncMod(kind, 5) > 2 && dot.Some? {
      NameMaskMatches(host, dot.value);
    } else {
      MatchesSelf(host);
    }
  }

  lemma NameMaskMatches(host: string, dot: nat)
    requires Last(host, '.') == Some(dot)
    ensures Numeric(host) ==> Matches(host[..dot] + ".*", host)
    ensures Matches(host, host)
    ensures Count('.', host[1..]) >= 2 ==> Matches("*" + host[Domain(host, dot)..], host)
  {
    assert host[..dot] + ".*" == host[..dot + 1] + "*";
    PrefixMatches(host, dot + 1);
    MatchesSelf(host);
    if Count('.', host[1..]) >= 2 {
      var at := Domain(host, dot);
      MatchesSelf(host[at..]);
      StarThen(host[at..], host, at);
    }
  }

  lemma PrefixMatches(host: string, n: nat)
    requires n <= |host|
    ensures Matches(host[..n] + "*", host)
  {
    assert host == host[..n] + host[n..];
    MatchesSelf(host[..n]);
    StarsMatchAll("*", host[n..]);
    Join(host[..n], "*", host[..n], host[n..]);
  }

  lemma PartsMatch(n: string, u: string, h: string, nick: string, user: string, host: string)
    requires Matches(n, nick) && Matches(u, user) && Matches(h, host)
    ensures Matches(n + ("!" + (u + ("@" + h))), nick + ("!" + (user + ("@" + host))))
  {
    MatchesSelf("!");
    MatchesSelf("@");
    Join("@", h, "@", host);
    Join(u, "@" + h, user, "@" + host);
    Join("!", u + ("@" + h), "!", user + ("@" + host));
    Join(n, "!" + (u + ("@" + h)), nick, "!" + (user + ("@" + host)));
  }

  lemma NickMaskMatches(a: Address, kind: int)
    requires a.nick.Some?
    ensures Matches(NickMask(a, kind), a.nick.value)
  {
    StarsMatchAll("*", a.nick.value);
    MatchesSelf(a.nick.value);
  }

  lemma UserMaskMatches(a: Address, kind: int)
    requires a.user.Some?
    ensures Matches(UserMask(a, kind), a.user.value)
  {
    var u, d := a.user.value, TruncMod(kind, 5);
    StarsMatchAll("*", u);
    MatchesSelf(u);
    if d != 0 && d != 2 && d != 4 {
      if u != "" && u[0] in DECORATION {
        MatchesSelf(u[1..]);
        StarThen(u[1..], u, 1);
      } else {
        assert u[0..] == u;
        StarThen(u, u, 0);
      }
    }
  }

  // s contains a '!' and, somewhere behind it, an '@'.
  ghost predicate Addressed(s: string) {
    exists i, j :: 0 <= i < j < |s| && s[i] == '!' && s[j] == '@'
  }

  lemma AddressedHasNick(s: string)
    ensures Addressed(s) <==> HasNick(s)
  {
    if i, j :| 0 <= i < j < |s| && s[i] == '!' && s[j] == '@' {
      var bang := First(s, '!').value;
      assert bang <= i;
    }
    if HasNick(s) {
      var bang := First(s, '!').value;
      var at := FirstFrom(s, '@', bang).value;
      assert s[bang] == '!' && s[at] == '@';
    }
  }

  lemma OneLetter(c: char, text: string)
    requires IsLiteral(c) && ToUpper(c) == c && Matches([c], text)
    requires !('A' <= c <= 'Z')
    ensures text == [c]
  {
    assert [c][1..] == "";
  }

  lemma SplitRejoins(s: string)
    requires HasNick(s)
    ensures var a := Split(s); a.nick.Some? && a.user.Some? && s == a.nick.value + ("!" + (a.user.value + ("@" + a.host)))
  {
  }

  lemma AddressMatches(s: string, kind: int)
    requires HasNick(s)
    ensures Matches(MaskOf(s, kind), s)
  {
    var a := Split(s);
    SplitRejoins(s);
    NickMaskMatches(a, kind);
    UserMaskMatches(a, kind);
    HostMaskMatches(a.host, kind);
    PartsMatch(NickMask(a, kind), UserMask(a, kind), HostMask(a.host, kind), a.nick.value, a.user.value, a.host);
  }

  /** The mask built from a text matches that text exactly when it has the form of an address, for
      every mask type. */
  lemma MaskMatches(s: string, kind: int)
    ensures Matches(MaskOf(s, kind), s) <==> Addressed(s)
  {
    AddressedHasNick(s);
    if HasNick(s) {
      AddressMatches(s, kind);
    } else if Matches(MaskOf(s, kind), s) {
      var a := Split(s);
      SeparatorsNeeded(NickMask(a, kind), UserMask(a, kind), HostMask(a.host, kind), s);
    }
  }

  lemma SeparatorsNeeded(n: string, u: string, h: string, s: string)
    requires Matches(n + ("!" + (u + ("@" + h))), s)
    ensures Addressed(s)
  {
    MatchesSplit(n, "!" + (u + ("@" + h)), s);
    var i :| 0 <= i <= |s| && Matches("!" + (u + ("@" + h)), s[i..]);
    var s1 := s[i..];
    MatchesSplit("!", u + ("@" + h), s1);
    var one :| 0 <= one <= |s1| && Matches("!", s1[..one]) && Matches(u + ("@" + h), s1[one..]);
    OneLetter('!', s1[..one]);
    var s2 := s1[one..];
    MatchesSplit(u, "@" + h, s2);
    var j :| 0 <= j <= |s2| && Matches("@" + h, s2[j..]);
    var s3 := s2[j..];
    MatchesSplit("@", h, s3);
    var k :| 0 <= k <= |s3| && Matches("@", s3[..k]);
    OneLetter('@', s3[..k]);
    assert s1[0] == s1[..one][0] == '!' && s3[0] == s3[..k][0] == '@';
    assert s[i] == '!' && s[i + 1 + j] == '@';
  }

  // The part of maskaddr() that finds the separators.
  method Separators(s: string) returns (u: Option<nat>, h: Option<nat>)
    ensures u.Some? ==> h.Some? && u.value < h.value
    ensures h.Some? ==> h.value < |s|
    ensures Split(s) == Address(if u.Some? then Some(s[..u.value]) else None,
                                if h.None? then None else Some(s[if u.Some? then u.value + 1 else 0..h.value]),
                                if h.Some? then s[h.value + 1..] else s)
  {
    u := First(s, '!');
    h := if u.Some? then FirstFrom(s, '@', u.value) else None;
    if h.None? {
      h := First(s, '@');
      u := None;
    }
  }

  /** maskaddr() */
  method Build(s: string, kind: int) returns (nw: string)
    ensures nw == MaskOf(s, kind)
  {
    var u, h := Separators(s);
    ghost var a := Split(s);
    var nick := if u.None? || TruncMod(kind, 10) < 5 then "*" else s[..u.value];
    var from := if u.Some? then u.value + 1 else 0;
    var user := BuildUser(if h.Some? then Some(s[from..h.value]) else None, kind);
    var host := if h.Some? then s[h.value + 1..] else s;
    var hostMask := BuildHost(host, kind);
    assert nick == NickMask(a, kind) && user == UserMask(a, kind) && host == a.host;
    return nick + ("!" + (user + ("@" + hostMask)));
  }

  // The part of maskaddr() that writes the user.
  method BuildUser(user: Option<string>, kind: int) returns (nw: string)
    ensures forall nick, host :: nw == UserMask(Address(nick, user, host), kind)
  {
    var d := TruncMod(kind, 5);
    if user.None? || d == 2 || d == 4 {
      return "*";
    }
    var u := user.value;
    nw := "";
    if d != 0 {
      nw := "*";
      if u != "" && u[0] in DECORATION {
        u := u[1..];
      }
    }
    nw := nw + u;
  }

  // The part of maskaddr() that writes the host.
  method BuildHost(host: string, kind: int) returns (nw: string)
    ensures nw == HostMask(host, kind)
  {
    if kind >= 30 {
      return "*";
    }
    var d := TruncMod(kind, 5);
    var num := IsNumeric(host);
    var p := Last(host, ':');
    if p.Some? && d > 2 {
      var dot := Last(host[p.value..], '.');
      var cut := if dot.Some? then p.value + dot.value else p.value;
      return host[..cut + 1] + "*";
    }
    if p.None? && !num && kind >= 10 {
      nw := ReplaceDigits(host, kind);
      return;
    }
    p := Last(host, '.');
    if d > 2 && p.Some? {
      if num {
        return host[..p.value] + ".*";
      }
      nw := BuildDomain(host, p.value);
      return;
    }
    return if host == "" then "*" else host;
  }

  // The part of maskaddr() that keeps the end of a host name.
  method BuildDomain(host: string, last: nat) returns (nw: string)
    requires last < |host|
    ensures nw == if Count('.', host[1..]) < 2 then host else "*" + host[Domain(host, last)..]
  {
    var dots := CountDots(host);
    if dots < 2 {
      return host;
    }
    assert host[0..] == host;
    CountFrom('.', host, 1);
    var u := First(host, '.').value;
    if dots > 3 || (dots == 3 && |host| - last > 3) {
      SecondDot(host, u);
      u := FirstFrom(host, '.', u + 1).value;
    }
    return "*" + host[u..];
  }

  method IsNumeric(host: string) returns (num: bool)
    ensures num == Numeric(host)
  {
    for p := 0 to |host|
      invariant Numeric(host[..p])
    {
      if (host[p] > '9' || host[p] < '0') && host[p] != '.' {
        return false;
      }
    }
    assert host[..|host|] == host;
    return true;
  }

  method ReplaceDigits(host: string, kind: int) returns (nw: string)
    ensures nw == Replaced(host, 0, kind < 20, false)
  {
    nw := "";
    var num := false;
    ghost var total := Replaced(host, 0, kind < 20, false);
    for p := 0 to |host|
      invariant nw + Replaced(host, p, kind < 20, num) == total
      invariant kind < 20 ==> !num
    {
      if host[p] < '0' || host[p] > '9' {
        Reassociate(nw, [host[p]], Replaced(host, p + 1, kind < 20, false));
        nw := nw + [host[p]];
        num := false;
      } else if kind < 20 {
        Reassociate(nw, "?", Replaced(host, p + 1, kind < 20, false));
        nw := nw + "?";
      } else if !num {
        Reassociate(nw, "*", Replaced(host, p + 1, kind < 20, true));
        nw := nw + "*";
        num := true;
      } else {
        Reassociate(nw, "", Replaced(host, p + 1, kind < 20, true));
      }
    }
  }

  lemma Reassociate(a: string, b: string, c: string)
    ensures (a + b) + c == a + (b + c)
    ensures b == "" ==> a + b == a
  {
  }

  // The number of dots behind the first character.
  method CountDots(host: string) returns (dots: nat)
    requires host != ""
    ensures dots == Count('.', host[1..])
  {
    dots := 0;
    var u := FirstFrom(host, '.', 1);
    var from := 1;
    while u.Some?
      invariant from <= |host| && u == FirstFrom(host, '.', from)
      invariant dots + Count('.', host[from..]) == Count('.', host[1..])
      decreases |host| - from
    {
      CountAfter('.', host, from);
      dots := dots + 1;
      from := u.value + 1;
      u := FirstFrom(host, '.', from);
    }
    CountFrom('.', host, from);
  }
}
