/** Strings of C, which end at a NUL. */
module CStrings {
  const NUL: char := 0 as char

  // A C string ends at the first NUL.
  function CString(s: string): (r: string)
    ensures |r| <= |s|
  {
    if s == "" || s[0] == NUL then "" else [s[0]] + CString(s[1..])
  }

  lemma {:induction false} NoNul(s: string)
    requires NUL !in s
    ensures CString(s) == s
  {
    if s != "" {
      assert s[0] in s && forall c :: c in s[1..] ==> c in s;
      NoNul(s[1..]);
    }
  }
}
