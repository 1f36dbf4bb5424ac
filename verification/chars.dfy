/**
 * The character questions the notes core asks. Two notions of "blank" meet
 * here and they differ:
 *  - String.isBlank, used by the word statistics, asks Character.isWhitespace
 *    of every character;
 *  - @NotBlank, on the entity and the request, trims the string (String.trim
 *    drops every leading and trailing character at or below U+0020) and
 *    rejects what is left when it is empty.
 * So "\u0001" is blank to @NotBlank but not to isBlank, and U+3000 the other
 * way round. Trim is written out below. Character.isWhitespace,
 * Character.isLetter (behind the regex class \p{L}) and lower-casing come
 * from the Unicode database; they are supplied from outside as a record of
 * functions, so every property proved with them holds whatever tables are
 * plugged in.
 */
module Chars {

  datatype CharClass = CharClass(
    isLetter: char -> bool,
    isWhitespace: char -> bool,
    toLower: char -> char)

  /** String.isBlank: empty, or whitespace only. */
  predicate IsBlank(s: string, cc: CharClass)
  {
    forall i :: 0 <= i < |s| ==> cc.isWhitespace(s[i])
  }

  /** The leading characters at or below U+0020 removed. */
  function TrimStart(s: string): (r: string)
    ensures |r| <= |s| && r == s[|s| - |r|..]
    ensures forall i :: 0 <= i < |s| - |r| ==> s[i] <= ' '
    ensures r == [] || r[0] > ' '
  {
    if s != [] && s[0] <= ' ' then TrimStart(s[1..]) else s
  }

  /** The trailing characters at or below U+0020 removed. */
  function TrimEnd(s: string): (r: string)
    ensures |r| <= |s| && r == s[..|r|]
    ensures forall i :: |r| <= i < |s| ==> s[i] <= ' '
    ensures r == [] || r[|r| - 1] > ' '
  {
    if s != [] && s[|s| - 1] <= ' ' then TrimEnd(s[..|s| - 1]) else s
  }

  /** String.trim: what is left is empty, or starts and ends above U+0020. */
  function Trim(s: string): (r: string)
    ensures |r| <= |s|
    ensures r == [] || (r[0] > ' ' && r[|r| - 1] > ' ')
  {
    TrimEnd(TrimStart(s))
  }

  /** Trimming leaves nothing exactly when every character is at or below U+0020. */
  lemma TrimEmptyIff(s: string)
    ensures Trim(s) == [] <==> forall i :: 0 <= i < |s| ==> s[i] <= ' '
  {
  }

  /** An ASCII-only instance of the tables, for concrete examples. */
  function AsciiIsLetter(c: char): bool
  {
    'a' <= c <= 'z' || 'A' <= c <= 'Z'
  }

  function AsciiIsWhitespace(c: char): bool
  {
    c == ' ' || c == '\t' || c == '\n' || c == '\r' || c == '\U{000C}'
  }

  function AsciiToLower(c: char): char
  {
    if 'A' <= c <= 'Z' then (c as int + 32) as char else c
  }

  const Ascii: CharClass := CharClass(AsciiIsLetter, AsciiIsWhitespace, AsciiToLower)
}
