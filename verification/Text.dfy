/**
 Strings as both languages see them: sequences of Unicode scalar values, compared by
 code point, with the two standard libraries' notions of a blank string.
 */
module Text {

  /** Python's `<` on `str`: lexicographic on code points. */
  predicate Less(a: string, b: string) {
    b != "" && (a == "" || a[0] < b[0] || (a[0] == b[0] && Less(a[1..], b[1..])))
  }

  /** `Less` is a strict total order. */
  lemma {:induction false} LessTotal(a: string, b: string)
    ensures Less(a, b) || Less(b, a) || a == b
    ensures !(Less(a, b) && Less(b, a))
    ensures Less(a, b) ==> a != b
  {
    if a != "" && b != "" && a[0] == b[0] {
      LessTotal(a[1..], b[1..]);
      assert a == [a[0]] + a[1..] && b == [b[0]] + b[1..];
    }
  }

  lemma {:induction false} LessTransitive(a: string, b: string, c: string)
    requires Less(a, b) && Less(b, c)
    ensures Less(a, c)
  {
    if a != "" && a[0] == b[0] && b[0] == c[0] {
      LessTransitive(a[1..], b[1..], c[1..]);
    }
  }

  predicate StartsWith(s: string, prefix: string) {
    |prefix| <= |s| && s[..|prefix|] == prefix
  }

  predicate Contains(s: string, needle: string) {
    exists i | 0 <= i <= |s| :: StartsWith(s[i..], needle)
  }

  /** The needle occurs somewhere, with any text before and after it. */
  lemma ContainsIff(s: string, needle: string)
    ensures Contains(s, needle) <==> exists before, after :: s == before + needle + after
  {
    if Contains(s, needle) {
      var i :| 0 <= i <= |s| && StartsWith(s[i..], needle);
      assert s == s[..i] + needle + s[i + |needle|..];
    }
    if before, after :| s == before + needle + after {
      assert s[|before|..] == needle + after;
      assert StartsWith(s[|before|..], needle);
    }
  }

  /** The Unicode White_Space property, which Rust's `str::trim` strips. */
  predicate WhiteSpace(c: char) {
    var n := c as int;
    || 0x09 <= n <= 0x0D || n in {0x20, 0x85, 0xA0, 0x1680} || 0x2000 <= n <= 0x200A
    || n in {0x2028, 0x2029, 0x202F, 0x205F, 0x3000}
  }

  /** U+001C..U+001F: whitespace for Python's `str.strip`, not for Rust's `str::trim`. */
  predicate Separator(c: char) {
    0x1C <= c as int <= 0x1F
  }

  /** Rust: `s.trim().is_empty()`. */
  predicate RustBlank(s: string) {
    forall i | 0 <= i < |s| :: WhiteSpace(s[i])
  }

  /** Python: `not s.strip()`. */
  predicate PythonBlank(s: string) {
    forall i | 0 <= i < |s| :: WhiteSpace(s[i]) || Separator(s[i])
  }

  /** The 25 characters of the property and the 4 that Python adds, one by one. */
  lemma BlanksListed(c: char)
    ensures WhiteSpace(c) <==> c as int in {
      0x09, 0x0A, 0x0B, 0x0C, 0x0D, 0x20, 0x85, 0xA0, 0x1680, 0x2000, 0x2001, 0x2002, 0x2003, 0x2004, 0x2005, 0x2006,
      0x2007, 0x2008, 0x2009, 0x200A, 0x2028, 0x2029, 0x202F, 0x205F, 0x3000}
    ensures Separator(c) <==> c as int in {0x1C, 0x1D, 0x1E, 0x1F}
  {
  }

  predicate NoSeparators(s: string) {
    forall i | 0 <= i < |s| :: !Separator(s[i])
  }

  /**
   Python refuses every string Rust refuses as blank. The two tests agree on a string exactly
   when it holds none of U+001C..U+001F, or holds something that is not blank to Python either.
   */
  lemma BlankTestsCompared(s: string)
    ensures RustBlank(s) ==> PythonBlank(s)
    ensures (PythonBlank(s) <==> RustBlank(s)) <==> (NoSeparators(s) || !PythonBlank(s))
  {
    if !NoSeparators(s) {
      var i :| 0 <= i < |s| && Separator(s[i]);
      assert !WhiteSpace(s[i]);
    }
  }

  /** A lone U+001C is a usable string to Rust and a blank one to Python. */
  lemma SeparatorIsBlankOnlyToPython()
    ensures PythonBlank([28 as char]) && !RustBlank([28 as char])
  {
    assert !WhiteSpace([28 as char][0]);
  }
}
