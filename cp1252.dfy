/**
 * Repair of text that the feed carries as Windows-1252 bytes read as Latin-1:
 * the C1 control characters U+0080..U+009F that code page 1252 uses for
 * printable characters are replaced, one character at a time, by those
 * characters (the table follows Microsoft's published code page 1252).
 */
module Cp1252 {

  /** The 27 C1 code points that code page 1252 assigns, and what they stand for. */
  const Windows1252Utf8: map<char, char> := map[
    '\U{80}' := '\U{20AC}',  // EURO SIGN
    '\U{82}' := '\U{201A}',  // SINGLE LOW-9 QUOTATION MARK
    '\U{83}' := '\U{0192}',  // LATIN SMALL LETTER F WITH HOOK
    '\U{84}' := '\U{201E}',  // DOUBLE LOW-9 QUOTATION MARK
    '\U{85}' := '\U{2026}',  // HORIZONTAL ELLIPSIS
    '\U{86}' := '\U{2020}',  // DAGGER
    '\U{87}' := '\U{2021}',  // DOUBLE DAGGER
    '\U{88}' := '\U{02C6}',  // MODIFIER LETTER CIRCUMFLEX ACCENT
    '\U{89}' := '\U{2030}',  // PER MILLE SIGN
    '\U{8A}' := '\U{0160}',  // LATIN CAPITAL LETTER S WITH CARON
    '\U{8B}' := '\U{2039}',  // SINGLE LEFT-POINTING ANGLE QUOTATION MARK
    '\U{8C}' := '\U{0152}',  // LATIN CAPITAL LIGATURE OE
    '\U{8E}' := '\U{017D}',  // LATIN CAPITAL LETTER Z WITH CARON
    '\U{91}' := '\U{2018}',  // LEFT SINGLE QUOTATION MARK
    '\U{92}' := '\U{2019}',  // RIGHT SINGLE QUOTATION MARK
    '\U{93}' := '\U{201C}',  // LEFT DOUBLE QUOTATION MARK
    '\U{94}' := '\U{201D}',  // RIGHT DOUBLE QUOTATION MARK
    '\U{95}' := '\U{2022}',  // BULLET
    '\U{96}' := '\U{2013}',  // EN DASH
    '\U{97}' := '\U{2014}',  // EM DASH
    '\U{98}' := '\U{02DC}',  // SMALL TILDE
    '\U{99}' := '\U{2122}',  // TRADE MARK SIGN
    '\U{9A}' := '\U{0161}',  // LATIN SMALL LETTER S WITH CARON
    '\U{9B}' := '\U{203A}',  // SINGLE RIGHT-POINTING ANGLE QUOTATION MARK
    '\U{9C}' := '\U{0153}',  // LATIN SMALL LIGATURE OE
    '\U{9E}' := '\U{017E}',  // LATIN SMALL LETTER Z WITH CARON
    '\U{9F}' := '\U{0178}'   // LATIN CAPITAL LETTER Y WITH DIAERESIS
  ]

  /** True when `s` holds none of the table's keys. */
  predicate KeyFree(s: string) {
    forall i :: 0 <= i < |s| ==> s[i] !in Windows1252Utf8
  }

  /** Every key is a C1 code point, so text without C1 characters is never touched. */
  lemma KeysAreC1(c: char)
    requires c in Windows1252Utf8
    ensures '\U{80}' <= c <= '\U{9F}'
  {
  }

  /** `table.get(c, c)` for one character. */
  function RepairChar(c: char): (r: char)
    ensures r !in Windows1252Utf8
    ensures c !in Windows1252Utf8 ==> r == c
  {
    if c in Windows1252Utf8 then Windows1252Utf8[c] else c
  }

  /**
   * `''.join(table.get(c, c) for c in text)`: the same number of characters,
   * each key replaced by its value and every other character kept.
   */
  function Repair(s: string): (r: string)
    ensures |r| == |s|
    ensures forall i :: 0 <= i < |s| ==>
              r[i] == if s[i] in Windows1252Utf8 then Windows1252Utf8[s[i]] else s[i]
    ensures KeyFree(r)
  {
    if s == [] then [] else [RepairChar(s[0])] + Repair(s[1..])
  }

  /** A string without keys is left as it is. */
  lemma {:induction false} RepairKeyFree(s: string)
    requires KeyFree(s)
    ensures Repair(s) == s
  {
    if s != [] {
      assert KeyFree(s[1..]);
      RepairKeyFree(s[1..]);
    }
  }

  /** Repairing twice is repairing once. */
  lemma RepairIdempotent(s: string)
    ensures Repair(Repair(s)) == Repair(s)
  {
    RepairKeyFree(Repair(s));
  }

  /** Repair commutes with concatenation: it works character by character. */
  lemma RepairAppend(s: string, t: string)
    ensures Repair(s + t) == Repair(s) + Repair(t)
  {
    var joined, parts := Repair(s + t), Repair(s) + Repair(t);
    forall i | 0 <= i < |s + t|
      ensures joined[i] == parts[i]
    {
      if i < |s| {
        assert (s + t)[i] == s[i];
      } else {
        assert (s + t)[i] == t[i - |s|];
      }
    }
  }
}
