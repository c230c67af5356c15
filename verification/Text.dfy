// Plain text as the program uses it: decimal numbers, splitting at a separator,
// trimming and lower-casing of ASCII text.
module Text {
  import opened Common

  predicate IsDigit(c: char) {
    '0' <= c <= '9'
  }

  predicate IsDigits(s: string) {
    s != "" && forall i :: 0 <= i < |s| ==> IsDigit(s[i])
  }

  function Digit(d: nat): char
    requires d < 10
  {
    "0123456789"[d]
  }

  function DigitValue(c: char): nat {
    if IsDigit(c) then c as int - '0' as int else 0
  }

  function NatText(n: nat): string {
    if n < 10 then [Digit(n)] else NatText(n / 10) + [Digit(n % 10)]
  }

  function NatValue(s: string): nat {
    if s == "" then 0 else 10 * NatValue(s[..|s| - 1]) + DigitValue(s[|s| - 1])
  }

  function IntText(n: int): string {
    if n < 0 then "-" + NatText(-n) else NatText(n)
  }

  predicate IsBlank(c: char) {
    c == ' ' || c == '\t' || c == '\n' || c == '\r'
  }

  function AsciiBlanks(): char -> bool {
    c => IsBlank(c)
  }

  function StripLeft(s: string, blank: char -> bool): string {
    if s != "" && blank(s[0]) then StripLeft(s[1..], blank) else s
  }

  function StripRight(s: string, blank: char -> bool): string {
    if s != "" && blank(s[|s| - 1]) then StripRight(s[..|s| - 1], blank) else s
  }

  function Strip(s: string, blank: char -> bool): string {
    StripRight(StripLeft(s, blank), blank)
  }

  // What the program takes from its character set: which characters are blanks, what the
  // lower case of a text is, and which number a text stands for.
  datatype Script = Script(blank: char -> bool, lower: string -> string, number: string -> Option<int>)

  // Decimal text is read as its number, and lower-casing is done once and for all, leaves
  // colons alone and puts no blank at either end.
  ghost predicate Sensible(script: Script) {
    && !script.blank(':') && script.lower("") == ""
    && (forall n :: ReadsBack(script, n))
    && (forall s :: LowersWell(script, s))
  }

  predicate ReadsBack(script: Script, n: int) {
    script.number(IntText(n)) == Some(n)
  }

  predicate LowersWell(script: Script, s: string) {
    && script.lower(script.lower(s)) == script.lower(s)
    && (':' in script.lower(s) <==> ':' in s)
    && (HasSolidEnds(s, script.blank) ==> HasSolidEnds(script.lower(s), script.blank))
  }

  // Not empty, and no blank at either end.
  predicate HasSolidEnds(s: string, blank: char -> bool) {
    s != "" && !blank(s[0]) && !blank(s[|s| - 1])
  }

  // Plain ASCII is such a script.
  function Ascii(): Script {
    Script(AsciiBlanks(), s => Lower(s), s => ParseInt(s))
  }

  // Decimal text with an optional sign, surrounded by optional blanks.
  function ParseInt(s: string): Option<int> {
    var t := Strip(s, AsciiBlanks());
    var negative := t != "" && t[0] == '-';
    var digits := if t != "" && (t[0] == '-' || t[0] == '+') then t[1..] else t;
    var value: int := NatValue(digits);
    if !IsDigits(digits) then None
    else Some(if negative then -value else value)
  }

  function LowerChar(c: char): char {
    if 'A' <= c <= 'Z' then (c as int + 32) as char else c
  }

  function Lower(s: string): (r: string)
    ensures |r| == |s| && forall i :: 0 <= i < |s| ==> r[i] == LowerChar(s[i])
  {
    if s == "" then "" else [LowerChar(s[0])] + Lower(s[1..])
  }

  // The pieces between separators, as many as there are separators and one more.
  function Split(s: string, sep: char): (parts: seq<string>)
    ensures parts != []
  {
    if s == "" then [""]
    else
      var rest := Split(s[1..], sep);
      if s[0] == sep then [""] + rest else [[s[0]] + rest[0]] + rest[1..]
  }

  function Join(parts: seq<string>, sep: char): string {
    if parts == [] then ""
    else if |parts| == 1 then parts[0]
    else parts[0] + [sep] + Join(parts[1..], sep)
  }

  // Decimal text, without leading zeros.
  lemma {:induction false} NatTextValue(n: nat)
    ensures IsDigits(NatText(n)) && NatValue(NatText(n)) == n
    ensures NatText(n)[0] == '0' <==> n == 0
  {
    if n < 10 {
      assert NatText(n)[..0] == "";
      assert DigitValue(Digit(n)) == n;
    } else {
      NatTextValue(n / 10);
      var init, last := NatText(n / 10), Digit(n % 10);
      assert NatText(n) == init + [last];
      NatValueAppend(init, last);
      assert DigitValue(last) == n % 10;
    }
  }

  // Decimal numbers: nothing is zero, and one more digit is ten times as much and the digit.
  lemma NatValueAppend(init: string, last: char)
    ensures NatValue("") == 0 && NatValue(init + [last]) == 10 * NatValue(init) + DigitValue(last)
    ensures '0' <= last <= '9' ==> NatValue(init + [last]) == 10 * NatValue(init) + (last as int - '0' as int)
  {
    assert (init + [last])[..|init|] == init;
  }

  lemma StripKeeps(s: string, blank: char -> bool)
    requires HasSolidEnds(s, blank)
    ensures Strip(s, blank) == s
  {
  }

  lemma DigitsAreNotBlank(s: string)
    requires IsDigits(s)
    ensures !IsBlank(s[0]) && !IsBlank(s[|s| - 1]) && s[0] != '-' && s[0] != '+'
  {
    assert IsDigit(s[0]) && IsDigit(s[|s| - 1]);
  }

  // Printing and parsing undo each other.
  lemma IntTextParses(n: int)
    ensures ParseInt(IntText(n)) == Some(n)
    ensures if n < 0 then IntText(n)[0] == '-' && IsDigits(IntText(n)[1..]) else IsDigits(IntText(n))
  {
    var size: nat := if n < 0 then -n else n;
    var digits := NatText(size);
    NatTextValue(size);
    DigitsAreNotBlank(digits);
    if n < 0 {
      StripKeeps("-" + digits, AsciiBlanks());
      assert ("-" + digits)[1..] == digits;
    } else {
      StripKeeps(digits, AsciiBlanks());
    }
  }

  lemma IntTextHasNo(n: int, sep: char)
    requires !IsDigit(sep) && sep != '-'
    ensures sep !in IntText(n)
  {
    NatTextValue(if n < 0 then -n else n);
  }

  lemma {:induction false} SplitPlain(s: string, sep: char)
    requires sep !in s
    ensures Split(s, sep) == [s]
  {
    if s != "" {
      SplitPlain(s[1..], sep);
      assert [s[0]] + s[1..] == s;
    }
  }

  lemma {:induction false} SplitFirst(s: string, rest: string, sep: char)
    requires sep !in s
    ensures Split(s + [sep] + rest, sep) == [s] + Split(rest, sep)
  {
    var t := s + [sep] + rest;
    if s == "" {
      assert t[1..] == rest;
    } else {
      SplitFirst(s[1..], rest, sep);
      assert t[1..] == s[1..] + [sep] + rest;
      assert [s[0]] + s[1..] == s;
    }
  }

  // Splitting recovers the joined pieces, if the separator is in none of them.
  lemma {:induction false} SplitJoin(parts: seq<string>, sep: char)
    requires parts != [] && forall i :: 0 <= i < |parts| ==> sep !in parts[i]
    ensures Split(Join(parts, sep), sep) == parts
  {
    if |parts| == 1 {
      SplitPlain(parts[0], sep);
    } else {
      SplitFirst(parts[0], Join(parts[1..], sep), sep);
      SplitJoin(parts[1..], sep);
    }
  }

  // Three pieces and four.
  lemma JoinThree(a: string, b: string, c: string)
    ensures Join([a, b, c], ':') == a + ":" + b + ":" + c
  {
    var parts := [a, b, c];
    assert parts[1..] == [b, c] && parts[1..][1..] == [c];
    assert Join([b, c], ':') == b + ":" + c;
    assert a + ":" + (b + ":" + c) == a + ":" + b + ":" + c;
  }

  lemma JoinFour(a: string, b: string, c: string, d: string)
    ensures Join([a, b, c, d], ':') == a + ":" + b + ":" + c + ":" + d
  {
    var parts := [a, b, c, d];
    assert parts[1..] == [b, c, d];
    JoinThree(b, c, d);
    assert a + ":" + (b + ":" + c + ":" + d) == a + ":" + b + ":" + c + ":" + d;
  }

  // Joining the pieces again gives the text.
  lemma {:induction false} JoinSplit(s: string, sep: char)
    ensures Join(Split(s, sep), sep) == s
  {
    if s != "" {
      var rest := Split(s[1..], sep);
      JoinSplit(s[1..], sep);
      if s[0] == sep {
        assert Split(s, sep)[1..] == rest;
      } else {
        assert Split(s, sep)[1..] == rest[1..];
        assert [s[0]] + s[1..] == s;
      }
    }
  }

  // No piece ever holds the separator.
  lemma {:induction false} PiecesArePlain(s: string, sep: char)
    ensures forall i :: 0 <= i < |Split(s, sep)| ==> sep !in Split(s, sep)[i]
  {
    if s != "" { PiecesArePlain(s[1..], sep); }
  }

  lemma {:induction false} StripLeftMeans(s: string, blank: char -> bool)
    ensures StripLeft(s, blank) == "" || !blank(StripLeft(s, blank)[0])
    ensures forall c :: !blank(c) ==> (c in StripLeft(s, blank) <==> c in s)
    ensures |StripLeft(s, blank)| <= |s| && StripLeft(s, blank) == s[|s| - |StripLeft(s, blank)|..]
    ensures forall i :: 0 <= i < |s| - |StripLeft(s, blank)| ==> blank(s[i])
  {
    if s != "" && blank(s[0]) {
      StripLeftMeans(s[1..], blank);
      assert s == [s[0]] + s[1..];
    }
  }

  lemma {:induction false} StripRightMeans(s: string, blank: char -> bool)
    ensures var t := StripRight(s, blank); t == "" || (!blank(t[|t| - 1]) && s != "" && t[0] == s[0])
    ensures forall c :: !blank(c) ==> (c in StripRight(s, blank) <==> c in s)
    ensures |StripRight(s, blank)| <= |s| && StripRight(s, blank) == s[..|StripRight(s, blank)|]
    ensures forall i :: |StripRight(s, blank)| <= i < |s| ==> blank(s[i])
  {
    if s != "" && blank(s[|s| - 1]) {
      StripRightMeans(s[..|s| - 1], blank);
      assert s == s[..|s| - 1] + [s[|s| - 1]];
    }
  }

  // Trimming takes blanks from both ends and nothing else.
  lemma StripMeans(s: string, blank: char -> bool)
    ensures Strip(s, blank) == "" || HasSolidEnds(Strip(s, blank), blank)
    ensures forall c :: !blank(c) ==> (c in Strip(s, blank) <==> c in s)
    ensures exists i, j :: 0 <= i <= j <= |s| && Strip(s, blank) == s[i..j]
                           && forall k :: 0 <= k < i || j <= k < |s| ==> blank(s[k])
  {
    StripLeftMeans(s, blank);
    var t := StripLeft(s, blank);
    StripRightMeans(t, blank);
    var i, j := |s| - |t|, |s| - |t| + |Strip(s, blank)|;
    assert Strip(s, blank) == s[i..j];
    forall k | 0 <= k < i || j <= k < |s| ensures blank(s[k]) { if k >= j { assert s[k] == t[k - i]; } }
  }

  // Capital letters become small ones, and everything else stays.
  lemma LowersLetters(i: nat, c: char)
    requires i < 26
    ensures LowerChar("ABCDEFGHIJKLMNOPQRSTUVWXYZ"[i]) == "abcdefghijklmnopqrstuvwxyz"[i]
    ensures c !in "ABCDEFGHIJKLMNOPQRSTUVWXYZ" ==> LowerChar(c) == c
  {
    var capitals, small := "ABCDEFGHIJKLMNOPQRSTUVWXYZ", "abcdefghijklmnopqrstuvwxyz";
    assert forall k :: 0 <= k < 26 ==> capitals[k] as int == 'A' as int + k;
    assert forall k :: 0 <= k < 26 ==> small[k] as int == 'a' as int + k;
    if 'A' <= c <= 'Z' { assert capitals[c as int - 'A' as int] == c; }
  }

  lemma LowerMeans(s: string, c: char)
    requires !('A' <= c <= 'Z') && !('a' <= c <= 'z')
    ensures c in Lower(s) <==> c in s
    ensures Lower(Lower(s)) == Lower(s)
  {
    if c in s {
      var i :| 0 <= i < |s| && s[i] == c;
      assert Lower(s)[i] == c;
    }
  }

  lemma AsciiIsSensible()
    ensures Sensible(Ascii())
  {
    forall n ensures ReadsBack(Ascii(), n) { IntTextParses(n); }
    forall s ensures LowersWell(Ascii(), s) { LowerMeans(s, ':'); }
  }
}
