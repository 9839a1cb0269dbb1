/** Trimming and byte lengths of texts, as the standard library of the source defines them. */
module Texts {

  /** The characters with the Unicode property White_Space. */
  predicate IsWhitespace(c: char) {
    '\U{9}' <= c <= '\U{D}' || c == ' ' || c == '\U{85}' || c == '\U{A0}' || c == '\U{1680}'
    || '\U{2000}' <= c <= '\U{200A}' || c == '\U{2028}' || c == '\U{2029}' || c == '\U{202F}' || c == '\U{205F}' || c == '\U{3000}'
  }

  /** Their code points. */
  lemma WhitespaceIsExact(c: char)
    ensures IsWhitespace(c) <==>
            c as int in {0x9, 0xA, 0xB, 0xC, 0xD, 0x20, 0x85, 0xA0, 0x1680, 0x2000, 0x2001, 0x2002, 0x2003, 0x2004, 0x2005, 0x2006,
                         0x2007, 0x2008, 0x2009, 0x200A, 0x2028, 0x2029, 0x202F, 0x205F, 0x3000}
  {}

  predicate Trimmed(s: string) {
    s == "" || (!IsWhitespace(s[0]) && !IsWhitespace(s[|s| - 1]))
  }

  function BlankPrefix(s: string): (n: nat)
    ensures n <= |s| && forall i | 0 <= i < n :: IsWhitespace(s[i])
    ensures n < |s| ==> !IsWhitespace(s[n])
  {
    if s == "" || !IsWhitespace(s[0]) then 0 else 1 + BlankPrefix(s[1..])
  }

  function EndOfText(s: string): (n: nat)
    ensures n <= |s| && forall i | n <= i < |s| :: IsWhitespace(s[i])
    ensures n > 0 ==> !IsWhitespace(s[n - 1])
  {
    if s == "" || !IsWhitespace(s[|s| - 1]) then |s| else EndOfText(s[..|s| - 1])
  }

  function Trim(s: string): (r: string)
    ensures Trimmed(r)
  {
    if EndOfText(s) == 0 then "" else s[BlankPrefix(s)..EndOfText(s)]
  }

  /** Trimming takes off the whitespace at both ends, and nothing more. */
  lemma TrimIsExact(s: string, from: nat, to: nat)
    requires from <= to <= |s| && Trimmed(s[from..to])
    requires (forall i | 0 <= i < from :: IsWhitespace(s[i])) && forall i | to <= i < |s| :: IsWhitespace(s[i])
    ensures Trim(s) == s[from..to]
  {
    var core := s[from..to];
    if core != "" {
      assert core[0] == s[from] && core[|core| - 1] == s[to - 1];
      assert BlankPrefix(s) == from && EndOfText(s) == to;
    }
  }

  function Utf8Width(c: char): (n: nat)
    ensures 1 <= n <= 4
  {
    if c as int < 0x80 then 1 else if c as int < 0x800 then 2 else if c as int < 0x10000 then 3 else 4
  }

  /** Length in bytes of the UTF-8 form. */
  function Utf8Length(s: string): (n: nat)
    ensures |s| <= n <= 4 * |s|
  {
    if s == "" then 0 else Utf8Length(s[..|s| - 1]) + Utf8Width(s[|s| - 1])
  }
}
