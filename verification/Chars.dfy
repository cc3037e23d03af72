/** Character classes and case folding of the C runtime, as far as the bot relies on them. */
module Chars {
  import opened Options

  // toupper() in the C locale.
  function ToUpper(c: char): char {
    if 'a' <= c <= 'z' then c - 'a' + 'A' else c
  }

  // rfc_toupper(): also folds '{', '|', '}' and '~' to '[', '\', ']' and '^'.
  function RfcUpper(c: char): char {
    if 'a' <= c <= '~' then c - 'a' + 'A' else c
  }

  predicate SameLetter(a: char, b: char) {
    ToUpper(a) == ToUpper(b)
  }

  predicate IsDigit(c: char) {
    '0' <= c <= '9'
  }

  // A text folded to upper case: equal for texts that strcasecmp() takes for the same.
  function Upper(s: string): string {
    if s == "" then "" else [ToUpper(s[0])] + Upper(s[1..])
  }

  // A name without regard to case.
  datatype Handle = Stop | Then(letter: char, more: Handle)

  function HandleOf(s: string): Handle {
    if s == "" then Stop else Then(ToUpper(s[0]), HandleOf(s[1..]))
  }

  // strchr(s + from, c), as an index into s.
  function FirstFrom(s: string, c: char, from: nat): (i: Option<nat>)
    requires from <= |s|
    ensures i.None? ==> forall k :: from <= k < |s| ==> s[k] != c
    ensures i.Some? ==> from <= i.value < |s| && s[i.value] == c && forall k :: from <= k < i.value ==> s[k] != c
    decreases |s| - from
  {
    if from == |s| then None else if s[from] == c then Some(from) else FirstFrom(s, c, from + 1)
  }

  function First(s: string, c: char): (i: Option<nat>)
    ensures i.None? ==> c !in s
    ensures i.Some? ==> i.value < |s| && s[i.value] == c && forall k :: 0 <= k < i.value ==> s[k] != c
  {
    FirstFrom(s, c, 0)
  }

  // strrchr(s, c), as an index into s.
  function Last(s: string, c: char): (i: Option<nat>)
    ensures i.None? ==> c !in s
    ensures i.Some? ==> i.value < |s| && s[i.value] == c && forall k :: i.value < k < |s| ==> s[k] != c
  {
    if s == "" then None
    else if s[|s| - 1] == c then Some(|s| - 1)
    else Last(s[..|s| - 1], c)
  }

  // str_isdigit()
  predicate AllDigits(s: string) {
    s != "" && forall i :: 0 <= i < |s| ==> IsDigit(s[i])
  }

  // atoi() of a text of digits.
  function Decimal(s: string): nat
    requires forall i :: 0 <= i < |s| ==> IsDigit(s[i])
  {
    if s == "" then
      0
    else
      var last := s[|s| - 1];
      assert IsDigit(last);
      10 * Decimal(s[..|s| - 1]) + (last as int - '0' as int)
  }
}
