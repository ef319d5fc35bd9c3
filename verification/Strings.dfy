/** The string helpers of the Go standard library that the modelled code calls. */
module Strings {
  // Unicode White_Space, as unicode.IsSpace.
  predicate IsSpace(c: char) {
    '\t' <= c <= '\r' || c in [' ', '\U{85}', '\U{A0}', '\U{1680}', '\U{2028}', '\U{2029}', '\U{202F}', '\U{205F}', '\U{3000}']
    || '\U{2000}' <= c <= '\U{200A}'
  }

  function TrimSpace(s: string): string {
    if s == [] then []
    else if IsSpace(s[0]) then TrimSpace(s[1..])
    else if IsSpace(s[|s| - 1]) then TrimSpace(s[..|s| - 1])
    else s
  }

  lemma {:induction false} TrimmedHasNoOuterSpace(s: string)
    ensures var t := TrimSpace(s); t != [] ==> !IsSpace(t[0]) && !IsSpace(t[|t| - 1])
    ensures TrimSpace(TrimSpace(s)) == TrimSpace(s)
  {
    if s != [] {
      if IsSpace(s[0]) {
        TrimmedHasNoOuterSpace(s[1..]);
      } else if IsSpace(s[|s| - 1]) {
        TrimmedHasNoOuterSpace(s[..|s| - 1]);
      }
    }
  }

  // s[lo..hi] is s without the spaces at both ends.
  ghost predicate IsTrimmed(space: char -> bool, s: string, lo: nat, hi: nat) {
    && lo <= hi <= |s| && (forall i :: 0 <= i < lo || hi <= i < |s| ==> space(s[i]))
    && (lo < hi ==> !space(s[lo]) && !space(s[hi - 1]))
  }

  lemma TrimsLeft(space: char -> bool, s: string, lo: nat, hi: nat)
    requires s != [] && space(s[0]) && IsTrimmed(space, s[1..], lo, hi)
    ensures IsTrimmed(space, s, lo + 1, hi + 1) && s[lo + 1..hi + 1] == s[1..][lo..hi]
  {
    assert forall i :: 0 < i < |s| ==> s[i] == s[1..][i - 1];
  }

  lemma TrimsRight(space: char -> bool, s: string, lo: nat, hi: nat)
    requires s != [] && space(s[|s| - 1]) && IsTrimmed(space, s[..|s| - 1], lo, hi)
    ensures IsTrimmed(space, s, lo, hi) && s[lo..hi] == s[..|s| - 1][lo..hi]
  {
    assert forall i :: 0 <= i < |s| - 1 ==> s[i] == s[..|s| - 1][i];
  }

  // What is trimmed is white space at both ends, and all of it.
  lemma {:induction false} TrimSpaceIs(s: string) returns (lo: nat, hi: nat)
    ensures IsTrimmed(IsSpace, s, lo, hi) && TrimSpace(s) == s[lo..hi]
  {
    if s == [] {
      lo, hi := 0, 0;
    } else if IsSpace(s[0]) {
      lo, hi := TrimSpaceIs(s[1..]);
      TrimsLeft(IsSpace, s, lo, hi);
      lo, hi := lo + 1, hi + 1;
    } else if IsSpace(s[|s| - 1]) {
      lo, hi := TrimSpaceIs(s[..|s| - 1]);
      TrimsRight(IsSpace, s, lo, hi);
    } else {
      lo, hi := 0, |s|;
    }
  }

  function AsSet(s: seq<string>): set<string> {
    set x | x in s
  }

  predicate IsDigit(c: char) {
    '0' <= c <= '9'
  }

  predicate AllDigits(s: string) {
    forall i :: 0 <= i < |s| ==> IsDigit(s[i])
  }

  // A decimal numeral without sign or leading zeros.
  function Numeral(n: nat): (s: string)
    ensures s != [] && AllDigits(s) && Value(s) == n
  {
    var last := [('0' as int + n % 10) as char];
    if n < 10 then last
    else
      assert (Numeral(n / 10) + last)[..|Numeral(n / 10)|] == Numeral(n / 10);
      Numeral(n / 10) + last
  }

  function Value(s: string): nat
    requires AllDigits(s)
  {
    if s == [] then 0 else Value(s[..|s| - 1]) * 10 + (s[|s| - 1] as int - '0' as int)
  }

  // The %d verb.
  function Decimal(n: int): string {
    if n < 0 then "-" + Numeral(-n) else Numeral(n)
  }
}
