/**
 * The decoder that the FossId client uses for boolean fields that the server sends as the text `0` or
 * `1`. Every text decodes to a boolean: `0` to false, `1` to true, and any other text to true exactly when
 * it reads `true` in any mix of upper and lower case.
 */
module FossId {

  /** The lower-case form of an ASCII letter; any other character is its own lower-case form. */
  function LowerAscii(c: char): (r: char)
    ensures !('A' <= r <= 'Z')
    ensures r == c || CaseVariants(c, r)
  {
    if 'A' <= c <= 'Z' then (c as int + 32) as char else c
  }

  /** Whether `a` and `b` are the upper- and the lower-case form of one ASCII letter, in either order. */
  predicate CaseVariants(a: char, b: char) {
    || ('A' <= a <= 'Z' && b as int == a as int + ('a' as int - 'A' as int))
    || ('A' <= b <= 'Z' && a as int == b as int + ('a' as int - 'A' as int))
  }

  /**
   * Two characters compare equal ignoring ASCII case exactly when they are equal or are the two cases of
   * one letter.
   */
  lemma SameLowerAscii(a: char, b: char)
    ensures LowerAscii(a) == LowerAscii(b) <==> a == b || CaseVariants(a, b)
  {
  }

  /** Whether `a` and `b` are equal when upper-case ASCII letters are read as lower-case ones. */
  predicate EqualsIgnoreCase(a: string, b: string) {
    |a| == |b| && forall i | 0 <= i < |a| :: LowerAscii(a[i]) == LowerAscii(b[i])
  }

  /** The text's boolean value, as a text-to-boolean conversion reads it: true exactly for `true` in any case. */
  predicate ToBoolean(text: string) {
    EqualsIgnoreCase(text, "true")
  }

  /** Decodes the text of a 0/1 boolean field. */
  function Deserialize(text: string): (r: bool)
    ensures text == "0" ==> !r
    ensures text == "1" ==> r
  {
    if text == "0" then false
    else if text == "1" then true
    else ToBoolean(text)
  }

  /** Whether `s` spells `true` with each letter in either case. */
  predicate SpellsTrue(s: string) {
    |s| == 4 && s[0] in "tT" && s[1] in "rR" && s[2] in "uU" && s[3] in "eE"
  }

  /** A text decodes to true exactly when it is `1` or spells `true` with each letter in either case. */
  lemma {:induction false} DeserializeTrueExactly(text: string)
    ensures Deserialize(text) <==> text == "1" || SpellsTrue(text)
  {
    if SpellsTrue(text) {
      assert forall i | 0 <= i < 4 :: LowerAscii(text[i]) == LowerAscii("true"[i]);
    }
  }

  /** Texts other than `1` and the spellings of `true` decode to false, for instance these. */
  lemma DeserializeExamples()
    ensures !Deserialize("0") && !Deserialize("2") && !Deserialize("yes") && !Deserialize("")
    ensures !Deserialize("false") && !Deserialize("true ") && !Deserialize("10")
    ensures Deserialize("1") && Deserialize("true") && Deserialize("TRUE") && Deserialize("tRuE")
  {
    assert !EqualsIgnoreCase("yes", "true");
    assert LowerAscii("false"[0]) != LowerAscii("true"[0]) by { assert "false"[0] == 'f'; }
    assert !EqualsIgnoreCase("false", "true");
    assert !EqualsIgnoreCase("true ", "true");
    assert EqualsIgnoreCase("TRUE", "true");
    assert EqualsIgnoreCase("tRuE", "true");
  }
}
