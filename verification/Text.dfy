/** The few string operations the selector grammar relies on. */
module Text {

  /** The Unicode White_Space property. */
  predicate IsSpace(c: char) {
    || ('\t' <= c <= '\r') || c == ' ' || c == '\U{0085}' || c == '\U{00A0}' || c == '\U{1680}'
    || ('\U{2000}' <= c <= '\U{200A}') || c == '\U{2028}' || c == '\U{2029}' || c == '\U{202F}'
    || c == '\U{205F}' || c == '\U{3000}'
  }

  function TrimStart(s: string): (r: string)
    ensures |r| <= |s|
  {
    if s != [] && IsSpace(s[0]) then TrimStart(s[1..]) else s
  }

  function TrimEnd(s: string): (r: string)
    ensures |r| <= |s|
  {
    if s != [] && IsSpace(s[|s| - 1]) then TrimEnd(s[..|s| - 1]) else s
  }

  function Trim(s: string): string {
    TrimEnd(TrimStart(s))
  }

  /** The same characters, listed as they are in the Unicode property file. */
  lemma SpacesListed(c: char)
    ensures IsSpace(c) <==>
      c as int in {0x9, 0xA, 0xB, 0xC, 0xD, 0x20, 0x85, 0xA0, 0x1680, 0x2000, 0x2001, 0x2002, 0x2003, 0x2004,
                   0x2005, 0x2006, 0x2007, 0x2008, 0x2009, 0x200A, 0x2028, 0x2029, 0x202F, 0x205F, 0x3000}
  {}

  ghost predicate AllSpace(s: string) {
    forall i :: 0 <= i < |s| ==> IsSpace(s[i])
  }

  predicate Trimmed(s: string) {
    s != [] ==> !IsSpace(s[0]) && !IsSpace(s[|s| - 1])
  }

  lemma {:induction false} TrimStartShape(s: string)
    ensures var t := TrimStart(s);
            && |t| <= |s| && t == s[|s| - |t|..]
            && (t != [] ==> !IsSpace(t[0]))
            && (s != [] && IsSpace(s[0]) ==> |t| < |s|)
  {
    if s != [] && IsSpace(s[0]) { TrimStartShape(s[1..]); }
  }

  lemma {:induction false} TrimEndShape(s: string)
    ensures var t := TrimEnd(s);
            && |t| <= |s| && t == s[..|t|]
            && (t != [] ==> !IsSpace(t[|t| - 1]))
            && (s != [] && IsSpace(s[|s| - 1]) ==> |t| < |s|)
            && (s != [] && !IsSpace(s[0]) ==> t != [])
  {
    if s != [] && IsSpace(s[|s| - 1]) { TrimEndShape(s[..|s| - 1]); }
  }

  /** Trimming yields a trimmed text and leaves exactly the trimmed ones alone. */
  lemma TrimShape(s: string)
    ensures Trimmed(Trim(s)) && |Trim(s)| <= |s|
    ensures Trim(s) == s <==> Trimmed(s)
  {
    TrimStartShape(s);
    TrimEndShape(TrimStart(s));
  }

  lemma {:induction false} StartIsSpace(s: string)
    ensures AllSpace(s[..|s| - |TrimStart(s)|])
  {
    TrimStartShape(s);
    if s != [] && IsSpace(s[0]) {
      StartIsSpace(s[1..]);
      TrimStartShape(s[1..]);
      var k := |s| - |TrimStart(s)|;
      assert s[..k] == [s[0]] + s[1..][..k - 1];
    }
  }

  lemma {:induction false} EndIsSpace(s: string)
    ensures AllSpace(s[|TrimEnd(s)|..])
  {
    TrimEndShape(s);
    if s != [] && IsSpace(s[|s| - 1]) {
      var n := |s| - 1;
      EndIsSpace(s[..n]);
      var k := |TrimEnd(s[..n])|;
      assert s[k..] == s[..n][k..] + [s[n]];
    }
  }

  /** Trimming takes white space off both ends, all of it and nothing else. */
  lemma TrimMeaning(s: string)
    ensures Trimmed(Trim(s))
    ensures exists left, right :: AllSpace(left) && AllSpace(right) && s == left + Trim(s) + right
  {
    TrimShape(s);
    var t := TrimStart(s);
    TrimStartShape(s);
    TrimEndShape(t);
    StartIsSpace(s);
    EndIsSpace(t);
    var left, right := s[..|s| - |t|], t[|Trim(s)|..];
    assert s == left + Trim(s) + right;
  }

  lemma TrimKeepsHead(s: string)
    requires s != [] && !IsSpace(s[0])
    ensures Trim(s) != [] && Trim(s)[0] == s[0] && Trim(s) == TrimEnd(s)
    ensures !IsSpace(s[|s| - 1]) ==> Trim(s) == s
    ensures IsSpace(s[|s| - 1]) ==> |Trim(s)| < |s|
  {
    TrimEndShape(s);
  }

  function LowerChar(c: char): char {
    if 'A' <= c <= 'Z' then c - 'A' + 'a' else c
  }

  /** ASCII lower case. */
  function Lower(s: string): (r: string)
    ensures |r| == |s| && forall i :: 0 <= i < |s| ==> r[i] == LowerChar(s[i])
  {
    if s == [] then [] else [LowerChar(s[0])] + Lower(s[1..])
  }

  /** The same letter, ASCII case aside. */
  predicate SameLetter(a: char, b: char) {
    || a == b
    || ('A' <= a <= 'Z' && b as int == a as int + 0x20)
    || ('A' <= b <= 'Z' && a as int == b as int + 0x20)
  }

  predicate SameWord(s: string, t: string) {
    |s| == |t| && forall i :: 0 <= i < |s| ==> SameLetter(s[i], t[i])
  }

  /** No capital letter of ASCII. */
  predicate LowerCase(s: string) {
    forall i :: 0 <= i < |s| ==> !('A' <= s[i] <= 'Z')
  }

  /** Lower case is the lower-case word that is the same but for case. */
  lemma LowerMeaning(s: string, w: string)
    ensures LowerCase(Lower(s)) && SameWord(s, Lower(s))
    ensures LowerCase(w) ==> (SameWord(s, w) <==> Lower(s) == w)
    ensures LowerCase(s) <==> Lower(s) == s
  {
    if LowerCase(w) && SameWord(s, w) { assert Lower(s) == w; }
  }
}
