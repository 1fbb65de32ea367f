/** White space as Python sees it, and stripping it off a text. */
module WhiteSpace {
  // The characters that str.strip removes and on which an argument-less str.split breaks a text
  predicate IsSpace(c: char) {
    var n := c as int;
    || 9 <= n <= 13 || 28 <= n <= 32 || 0x2000 <= n <= 0x200A
    || n in {0x85, 0xA0, 0x1680, 0x2028, 0x2029, 0x202F, 0x205F, 0x3000}
  }

  // All 29 of them
  lemma SpacesAre(c: char)
    ensures IsSpace(c) <==>
              c as int in {9, 10, 11, 12, 13, 28, 29, 30, 31, 32, 0x85, 0xA0, 0x1680,
                           0x2000, 0x2001, 0x2002, 0x2003, 0x2004, 0x2005, 0x2006, 0x2007, 0x2008, 0x2009, 0x200A,
                           0x2028, 0x2029, 0x202F, 0x205F, 0x3000}
  {}

  // ---- Stripping, for any notion of white space ----

  function StripStart<T>(s: seq<T>, white: T -> bool): seq<T> {
    if s != [] && white(s[0]) then StripStart(s[1..], white) else s
  }

  function StripEnd<T>(s: seq<T>, white: T -> bool): seq<T> {
    if s != [] && white(s[|s| - 1]) then StripEnd(s[..|s| - 1], white) else s
  }

  function Strip<T>(s: seq<T>, white: T -> bool): seq<T> { StripEnd(StripStart(s, white), white) }

  ghost predicate AllWhite<T>(s: seq<T>, white: T -> bool) { forall i | 0 <= i < |s| :: white(s[i]) }

  lemma {:induction false} StripStartIsExact<T>(s: seq<T>, white: T -> bool) returns (k: nat)
    ensures k <= |s| && StripStart(s, white) == s[k..] && AllWhite(s[..k], white)
    ensures k < |s| ==> !white(s[k])
  {
    if s == [] || !white(s[0]) {
      k := 0;
    } else {
      k := StripStartIsExact(s[1..], white);
      assert s[1..][k..] == s[k + 1..];
      forall i | 0 <= i < k + 1 ensures white(s[i]) { if i > 0 { assert s[1..][..k][i - 1] == s[i]; } }
      k := k + 1;
    }
  }

  lemma {:induction false} StripEndIsExact<T>(s: seq<T>, white: T -> bool) returns (k: nat)
    ensures k <= |s| && StripEnd(s, white) == s[..k] && AllWhite(s[k..], white)
    ensures k > 0 ==> !white(s[k - 1])
  {
    k := |s|;
    if s != [] && white(s[|s| - 1]) {
      var front := s[..|s| - 1];
      k := StripEndIsExact(front, white);
      assert front[..k] == s[..k];
      forall i | 0 <= i < |s| - k ensures white(s[k..][i]) {
        if i < |front| - k { assert front[k..][i] == s[k..][i]; }
      }
    }
  }

  // Stripping takes white space off both ends, all of it and nothing else.
  lemma StripIsExact<T>(s: seq<T>, white: T -> bool) returns (a: seq<T>, b: seq<T>)
    ensures s == a + Strip(s, white) + b && AllWhite(a, white) && AllWhite(b, white)
    ensures var t := Strip(s, white); t != [] ==> !white(t[0]) && !white(t[|t| - 1])
  {
    var k := StripStartIsExact(s, white);
    var n := StripEndIsExact(s[k..], white);
    a, b := s[..k], s[k..][n..];
    assert s[k..] == s[k..][..n] + b && s == a + s[k..];
  }
}
