/**
 * File-name sanitisation: every character outside [a-zA-Z0-9] is replaced by
 * '-', one for one, and the result is lower-cased.
 */
module FileNames {

  predicate IsAsciiAlnum(c: char) {
    'a' <= c <= 'z' || 'A' <= c <= 'Z' || '0' <= c <= '9'
  }

  /** The alphabet of sanitised names: [a-z0-9-]. */
  predicate IsFileNameChar(c: char) {
    'a' <= c <= 'z' || '0' <= c <= '9' || c == '-'
  }

  /** Lower-casing of one character, for the characters a replaced name can hold. */
  function LowerChar(c: char): (d: char)
    ensures 'A' <= c <= 'Z' ==> 'a' <= d <= 'z' && d as int - 'a' as int == c as int - 'A' as int
    ensures !('A' <= c <= 'Z') ==> d == c
  {
    if 'A' <= c <= 'Z' then (c as int - 'A' as int + 'a' as int) as char else c
  }

  /** What sanitisation does to one character. */
  function SanitizeChar(c: char): (d: char)
    ensures IsFileNameChar(d)
    ensures IsAsciiAlnum(c) <==> d != '-'
  {
    if IsAsciiAlnum(c) then LowerChar(c) else '-'
  }

  /** The global regular-expression replace: each non-alphanumeric character becomes '-'. */
  function ReplaceNonAlnum(s: string): (r: string)
    ensures |r| == |s|
    ensures forall i :: 0 <= i < |s| ==> r[i] == (if IsAsciiAlnum(s[i]) then s[i] else '-')
  {
    if s == [] then [] else [if IsAsciiAlnum(s[0]) then s[0] else '-'] + ReplaceNonAlnum(s[1..])
  }

  /** Lower-casing a string, character by character. */
  function LowerCase(s: string): (r: string)
    ensures |r| == |s|
    ensures forall i :: 0 <= i < |s| ==> r[i] == LowerChar(s[i])
  {
    if s == [] then [] else [LowerChar(s[0])] + LowerCase(s[1..])
  }

  /** The sanitised name: replace first, then lower-case. */
  function Sanitize(name: string): (r: string)
    ensures |r| == |name|
  {
    LowerCase(ReplaceNonAlnum(name))
  }

  /**
   * Sanitising keeps the length (runs of separators are not merged), and the
   * character at each position is that position's character sanitised.
   */
  lemma SanitizeAt(name: string)
    ensures |Sanitize(name)| == |name|
    ensures forall i :: 0 <= i < |name| ==> Sanitize(name)[i] == SanitizeChar(name[i])
  {
  }

  /** Every character of a sanitised name is in [a-z0-9-]. */
  lemma SanitizeAlphabet(name: string)
    ensures forall i :: 0 <= i < |Sanitize(name)| ==> IsFileNameChar(Sanitize(name)[i])
  {
    SanitizeAt(name);
  }

  /** A name over [a-z0-9-] is its own sanitisation. */
  lemma SanitizeFixes(name: string)
    requires forall i :: 0 <= i < |name| ==> IsFileNameChar(name[i])
    ensures Sanitize(name) == name
  {
    SanitizeAt(name);
  }

  /** Sanitising twice is sanitising once. */
  lemma SanitizeIdempotent(name: string)
    ensures Sanitize(Sanitize(name)) == Sanitize(name)
  {
    SanitizeAlphabet(name);
    SanitizeFixes(Sanitize(name));
  }

  /** Sanitising works character by character, so it distributes over concatenation. */
  lemma SanitizeConcat(a: string, b: string)
    ensures Sanitize(a + b) == Sanitize(a) + Sanitize(b)
  {
    SanitizeAt(a);
    SanitizeAt(b);
    SanitizeAt(a + b);
  }

  /** From the iPad Pro icon's name: capitals become small letters and the space one '-'. */
  lemma SanitizeExampleWords()
    ensures Sanitize("iPad Pro") == "ipad-pro"
  {
    SanitizeAt("iPad Pro");
  }

  /** From the iPad Pro icon's name: the '.' and the '@' each become one '-', digits stay. */
  lemma SanitizeExampleSize()
    ensures Sanitize("83.5@2x") == "83-5-2x"
  {
    SanitizeAt("83.5@2x");
  }

  /** The iPad Pro icon's full name, sanitised piece by piece: "iPad Pro", " App icon ", "83.5x", "83.5@2x". */
  lemma SanitizeExampleName()
    ensures Sanitize("iPad Pro App icon 83.5x83.5@2x") == "ipad-pro-app-icon-83-5x83-5-2x"
  {
    ExampleNamePieces();
    SanitizeExampleWords();
    SanitizeExampleSize();
    SanitizeExampleMiddle();
    SanitizeExamplePoints();
    SanitizeConcat("iPad Pro", " App icon ");
    SanitizeConcat("iPad Pro" + " App icon ", "83.5x");
    SanitizeConcat("iPad Pro" + " App icon " + "83.5x", "83.5@2x");
  }

  /** The words between device and size in the example name. */
  lemma SanitizeExampleMiddle()
    ensures Sanitize(" App icon ") == "-app-icon-"
  {
    assert " App icon " == " App" + " icon ";
    assert "-app-icon-" == "-app" + "-icon-";
    SanitizeExampleApp();
    SanitizeExampleIcon();
    SanitizeConcat(" App", " icon ");
  }

  /** The first middle word, with the space before it. */
  lemma SanitizeExampleApp()
    ensures Sanitize(" App") == "-app"
  {
    SanitizeAt(" App");
  }

  /** The second middle word, with the spaces around it. */
  lemma SanitizeExampleIcon()
    ensures Sanitize(" icon ") == "-icon-"
  {
    SanitizeAt(" icon ");
  }

  /** The point size in the example name. */
  lemma SanitizeExamplePoints()
    ensures Sanitize("83.5x") == "83-5x"
  {
    SanitizeAt("83.5x");
  }

  /** The example name and its sanitised form, each cut into the same four pieces. */
  lemma ExampleNamePieces()
    ensures "iPad Pro App icon 83.5x83.5@2x" == "iPad Pro" + " App icon " + "83.5x" + "83.5@2x"
    ensures "ipad-pro-app-icon-83-5x83-5-2x" == "ipad-pro" + "-app-icon-" + "83-5x" + "83-5-2x"
  {
  }

  /** Different names can share a sanitised name: a space and a hyphen both become '-'. */
  lemma SanitizeNotInjective()
    ensures Sanitize("App icon") == Sanitize("app-icon")
  {
    SanitizeAt("App icon");
    SanitizeAt("app-icon");
  }

  /** Names of different lengths, or with a position that sanitises differently, stay apart. */
  lemma SanitizedApart(a: string, b: string, k: nat)
    requires |a| != |b| || (k < |a| == |b| && SanitizeChar(a[k]) != SanitizeChar(b[k]))
    ensures Sanitize(a) != Sanitize(b)
  {
    SanitizeAt(a);
    SanitizeAt(b);
  }
}
