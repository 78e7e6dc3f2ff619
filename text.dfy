/** The two Python string operations the quiz scorer applies to text answers:
    `str.lower()` and `str.strip()` with no argument. */
module Text {

  /** Python's `str.isspace()` for one character: the Unicode whitespace characters. */
  predicate IsSpace(c: char) {
    || ('\t' <= c <= '\r')
    || ('\U{1C}' <= c <= ' ')
    || c == '\U{85}' || c == '\U{A0}' || c == '\U{1680}'
    || ('\U{2000}' <= c <= '\U{200A}')
    || c == '\U{2028}' || c == '\U{2029}' || c == '\U{202F}' || c == '\U{205F}' || c == '\U{3000}'
  }

  /** Upper-case letters of the ASCII and Latin-1 ranges (A-Z, and the letters from
      U+00C0 to U+00DE except the multiplication sign U+00D7). */
  predicate IsUpper(c: char) {
    ('A' <= c <= 'Z') || ('\U{C0}' <= c <= '\U{DE}' && c != '\U{D7}')
  }

  /** Python's `str.lower()` for one character of the ranges above; every other
      character is left as it is. */
  function LowerChar(c: char): (r: char)
    ensures IsUpper(c) ==> r as int == c as int + 32
    ensures !IsUpper(c) ==> r == c
    ensures !IsUpper(r)
    ensures IsSpace(r) <==> IsSpace(c)
  {
    if IsUpper(c) then (c as int + 32) as char else c
  }

  function Lower(s: string): (r: string)
    ensures |r| == |s|
    ensures forall i :: 0 <= i < |s| ==> r[i] == LowerChar(s[i])
  {
    seq(|s|, i requires 0 <= i < |s| => LowerChar(s[i]))
  }

  /** The number of whitespace characters at the start of `s`. */
  function LeadingSpace(s: string): (n: nat)
    ensures n <= |s|
    ensures forall k :: 0 <= k < n ==> IsSpace(s[k])
    ensures n < |s| ==> !IsSpace(s[n])
  {
    if |s| == 0 || !IsSpace(s[0]) then 0 else 1 + LeadingSpace(s[1..])
  }

  /** The length of `s` without the whitespace at its end. */
  function TrailingStart(s: string): (n: nat)
    ensures n <= |s|
    ensures forall k :: n <= k < |s| ==> IsSpace(s[k])
    ensures 0 < n ==> !IsSpace(s[n - 1])
  {
    if |s| == 0 || !IsSpace(s[|s| - 1]) then |s| else TrailingStart(s[..|s| - 1])
  }

  /** Python's `str.strip()`: `s` without leading and trailing whitespace. */
  function Strip(s: string): (r: string)
    ensures |r| <= |s|
    ensures r == [] || (!IsSpace(r[0]) && !IsSpace(r[|r| - 1]))
  {
    var t := s[LeadingSpace(s)..];
    t[..TrailingStart(t)]
  }

  /** The normal form the quiz scorer compares text answers in: `s.lower().strip()`. */
  function Normalize(s: string): string {
    Strip(Lower(s))
  }

  predicate AllSpace(s: string) {
    forall k :: 0 <= k < |s| ==> IsSpace(s[k])
  }

  /** Strip removes exactly the surrounding whitespace: whenever `s` is some whitespace,
      then `r` with no whitespace at either end, then some whitespace, Strip(s) is `r`. */
  lemma StripExactly(pre: string, r: string, post: string)
    requires AllSpace(pre) && AllSpace(post)
    requires r == [] || (!IsSpace(r[0]) && !IsSpace(r[|r| - 1]))
    ensures Strip(pre + r + post) == r
  {
    var s := pre + r + post;
    var a := LeadingSpace(s);
    if r == [] {
      assert AllSpace(s);
      assert a == |s|;
    } else {
      assert s[|pre|] == r[0];
      assert a == |pre|;
      var t := s[a..];
      assert t == r + post;
      var b := TrailingStart(t);
      assert t[|r| - 1] == r[|r| - 1];
      assert b == |r|;
      assert t[..b] == r;
    }
  }

  lemma StripIdempotent(s: string)
    ensures Strip(Strip(s)) == Strip(s)
  {
    var r := Strip(s);
    assert r == [] + r + [];
    StripExactly([], r, []);
  }

  lemma LowerIdempotent(s: string)
    ensures Lower(Lower(s)) == Lower(s)
  {
  }

  /** Normalising twice is normalising once, so the quiz scorer's comparison is an
      equivalence of answers. */
  lemma NormalizeIdempotent(s: string)
    ensures Normalize(Normalize(s)) == Normalize(s)
  {
    var r := Normalize(s);
    var t := Lower(s);
    var a := LeadingSpace(t);
    var u := t[a..];
    assert r == u[..TrailingStart(u)];
    assert Lower(r) == r;
    StripIdempotent(t);
  }

  lemma LowerParis()
    ensures Lower("PARIS") == "paris" && Lower("Paris") == "paris" && Lower(" paris ") == " paris "
  {
    assert LowerChar('P') == 'p' && LowerChar('A') == 'a' && LowerChar('R') == 'r';
    assert LowerChar('I') == 'i' && LowerChar('S') == 's';
  }

  /** A word without surrounding whitespace is its own strip, alone or padded by one space. */
  lemma StripPadded(r: string)
    requires r == [] || (!IsSpace(r[0]) && !IsSpace(r[|r| - 1]))
    ensures Strip(r) == r && Strip(" " + r + " ") == r
  {
    assert AllSpace(" ");
    assert r == [] + r + [];
    StripExactly([], r, []);
    StripExactly(" ", r, " ");
  }

  lemma StripParis()
    ensures Strip("paris") == "paris" && Strip(" paris ") == "paris"
  {
    var w := "paris";
    assert !IsSpace(w[0]) && !IsSpace(w[|w| - 1]);
    StripPadded(w);
    assert " paris " == " " + w + " ";
  }

  /** The scorer's case- and whitespace-insensitivity, on the capital of France. */
  lemma ParisExample()
    ensures Normalize(" paris ") == "paris"
    ensures Normalize("PARIS") == "paris"
    ensures Normalize("Paris") == "paris"
  {
    LowerParis();
    StripParis();
  }

  /** The decimal digits of a natural number, as `str()` writes them. */
  function Digits(n: nat): (r: string)
    ensures |r| >= 1 && forall i :: 0 <= i < |r| ==> '0' <= r[i] <= '9'
  {
    var d := ['0' + (n % 10) as char];
    if n < 10 then d else Digits(n / 10) + d
  }

  /** `str()` of an integer: a minus sign before the digits of a negative one. */
  function Decimal(n: int): string {
    if n < 0 then "-" + Digits(-n) else Digits(n)
  }
}
