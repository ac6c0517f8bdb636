/** Characters and strings as the relay, the link splitter and the calendar printer
    see them: a string is a sequence of Unicode scalar values. */
module Text {

  /** Unicode White_Space. */
  predicate IsWhitespace(c: char) {
    || '\t' <= c <= '\r' || c == ' ' || c == '\U{85}' || c == '\U{A0}' || c == '\U{1680}'
    || '\U{2000}' <= c <= '\U{200A}' || c == '\U{2028}' || c == '\U{2029}' || c == '\U{202F}'
    || c == '\U{205F}' || c == '\U{3000}'
  }

  /** Unicode general category Cc: the C0 and C1 controls. */
  predicate IsControl(c: char) {
    c <= '\U{1F}' || '\U{7F}' <= c <= '\U{9F}'
  }

  predicate IsDigit(c: char) {
    '0' <= c <= '9'
  }

  predicate IsAlphanumeric(c: char) {
    IsDigit(c) || 'a' <= c <= 'z' || 'A' <= c <= 'Z'
  }

  predicate IsHexDigit(c: char) {
    IsDigit(c) || 'a' <= c <= 'f' || 'A' <= c <= 'F'
  }

  /** ASCII lower case; other characters stay. */
  function LowerChar(c: char): char {
    if 'A' <= c <= 'Z' then c - 'A' + 'a' else c
  }

  function Lower(s: string): (lower: string)
    ensures |lower| == |s|
  {
    seq(|s|, i requires 0 <= i < |s| => LowerChar(s[i]))
  }

  function TrimStart(s: string): string {
    if s != [] && IsWhitespace(s[0]) then TrimStart(s[1..]) else s
  }

  function TrimEnd(s: string): string {
    if s != [] && IsWhitespace(s[|s| - 1]) then TrimEnd(s[..|s| - 1]) else s
  }

  function Trim(s: string): string {
    TrimEnd(TrimStart(s))
  }

  /** How both sides of the relay spell a public key before they compare it. */
  function Canonical(pubkey: string): string {
    Lower(Trim(pubkey))
  }

  /** A public key in hexadecimal. */
  predicate IsHex64(s: string) {
    |s| == 64 && forall i :: 0 <= i < |s| ==> IsHexDigit(s[i])
  }

  predicate EqualIgnoringCase(a: string, b: string) {
    Lower(a) == Lower(b)
  }

  ghost predicate HasNoEdgeSpace(s: string) {
    s == [] || (!IsWhitespace(s[0]) && !IsWhitespace(s[|s| - 1]))
  }

  lemma {:induction false} TrimStartTrimmed(s: string)
    ensures TrimStart(s) == [] || !IsWhitespace(TrimStart(s)[0])
    ensures TrimStart(s) != [] ==> s != [] && TrimStart(s)[|TrimStart(s)| - 1] == s[|s| - 1]
  {
    if s != [] && IsWhitespace(s[0]) {
      TrimStartTrimmed(s[1..]);
    }
  }

  lemma {:induction false} TrimEndTrimmed(s: string)
    ensures TrimEnd(s) == [] || !IsWhitespace(TrimEnd(s)[|TrimEnd(s)| - 1])
    ensures TrimEnd(s) <= s
  {
    if s != [] && IsWhitespace(s[|s| - 1]) {
      TrimEndTrimmed(s[..|s| - 1]);
    }
  }

  /** Trimming is exactly what leaves no space at either end, and then does nothing more. */
  lemma {:induction false} TrimTrims(s: string)
    ensures HasNoEdgeSpace(Trim(s))
    ensures HasNoEdgeSpace(s) <==> Trim(s) == s
    ensures Trim(Trim(s)) == Trim(s)
  {
    var front := TrimStart(s);
    TrimStartTrimmed(s);
    TrimEndTrimmed(front);
    if Trim(s) != [] {
      assert Trim(s)[0] == front[0];
    }
  }

  /** Letters change case, spaces do not. */
  lemma {:induction false} LowerKeepsSpace(s: string)
    ensures Lower(Lower(s)) == Lower(s)
    ensures HasNoEdgeSpace(s) ==> HasNoEdgeSpace(Lower(s))
    ensures IsHex64(s) <==> IsHex64(Lower(s))
  {
    forall i | 0 <= i < |s|
      ensures IsHexDigit(s[i]) <==> IsHexDigit(Lower(s)[i])
      ensures IsWhitespace(s[i]) <==> IsWhitespace(Lower(s)[i])
    {
    }
  }

  lemma {:induction false} HexHasNoSpace(s: string)
    requires IsHex64(s)
    ensures Trim(s) == s
    ensures IsHex64(Lower(s)) && Canonical(s) == Lower(s)
  {
    assert !IsWhitespace(s[0]) && !IsWhitespace(s[63]);
    TrimTrims(s);
    LowerKeepsSpace(s);
  }

  predicate AllSpace(s: string) {
    forall i :: 0 <= i < |s| ==> IsWhitespace(s[i])
  }

  /** Trimming cuts off space at both ends and nothing else. */
  lemma {:induction false} TrimCutsSpace(s: string) returns (front: string, back: string)
    ensures s == front + Trim(s) + back && AllSpace(front) && AllSpace(back) && HasNoEdgeSpace(Trim(s))
  {
    var middle;
    front, middle := TrimStartCuts(s);
    back := TrimEndCuts(middle);
    TrimTrims(s);
    assert s == front + (Trim(s) + back);
  }

  lemma {:induction false} TrimStartCuts(s: string) returns (front: string, rest: string)
    ensures s == front + rest && rest == TrimStart(s) && AllSpace(front)
  {
    if s != [] && IsWhitespace(s[0]) {
      front, rest := TrimStartCuts(s[1..]);
      assert s == [s[0]] + front + rest;
      front := [s[0]] + front;
    } else {
      front, rest := [], s;
    }
  }

  lemma {:induction false} TrimEndCuts(s: string) returns (back: string)
    ensures s == TrimEnd(s) + back && AllSpace(back)
  {
    if s != [] && IsWhitespace(s[|s| - 1]) {
      var n := |s| - 1;
      back := TrimEndCuts(s[..n]);
      assert s == TrimEnd(s) + (back + [s[n]]);
      back := back + [s[n]];
    } else {
      back := [];
    }
  }

  /** Capital letters become small ones, 32 places on; everything else stays. */
  lemma {:induction false} LowerExactly(s: string, i: nat)
    requires i < |s|
    ensures |Lower(s)| == |s|
    ensures Lower(s)[i] as int == if 65 <= s[i] as int <= 90 then s[i] as int + 32 else s[i] as int
  {
  }

  /** The digits of a key, one by one. */
  lemma {:induction false} HexExactly(s: string)
    ensures IsHex64(s) <==> |s| == 64 && forall i :: 0 <= i < |s| ==> s[i] in "0123456789abcdefABCDEF"
  {
    forall i | 0 <= i < |s|
      ensures IsHexDigit(s[i]) <==> s[i] in "0123456789abcdefABCDEF"
    {
      HexDigits(s[i]);
    }
  }

  lemma {:induction false} HexDigits(c: char)
    ensures IsHexDigit(c) <==> c in "0123456789abcdefABCDEF"
  {
    var n := c as int;
    if IsDigit(c) {
      assert "0123456789abcdefABCDEF"[n - 48] == c;
    } else if 'a' <= c <= 'f' {
      assert "0123456789abcdefABCDEF"[n - 97 + 10] == c;
    } else if 'A' <= c <= 'F' {
      assert "0123456789abcdefABCDEF"[n - 65 + 16] == c;
    }
  }
}
