/**
 * PHP's string helpers as the framework applies them to request values:
 * `strtolower`, `trim` and the blank test behind `required` and `filled`.
 */
module PhpText {
  /** `strtolower`: ASCII upper-case letters to lower case, everything else kept. */
  function Lower(s: string): (r: string)
    ensures |r| == |s|
    ensures forall i :: 0 <= i < |s| ==> r[i] == if 'A' <= s[i] <= 'Z' then (s[i] as int + 32) as char else s[i]
  {
    seq(|s|, i requires 0 <= i < |s| => if 'A' <= s[i] <= 'Z' then (s[i] as int + 32) as char else s[i])
  }

  /** The characters `trim` strips by default: space, tab, newline, carriage return, NUL, vertical tab. */
  predicate Blank(c: char)
  {
    c == ' ' || c == '\t' || c == '\n' || c == '\r' || c == 0 as char || c == 11 as char
  }

  /** `trim`: blanks stripped from both ends. */
  function Trim(s: string): (r: string)
    ensures |r| <= |s|
    ensures r == [] || (!Blank(r[0]) && !Blank(r[|r| - 1]))
    ensures s == [] || (!Blank(s[0]) && !Blank(s[|s| - 1])) ==> r == s
    ensures forall c :: c in r ==> c in s
    decreases |s|
  {
    if s != [] && Blank(s[0]) then Trim(s[1..])
    else if s != [] && Blank(s[|s| - 1]) then Trim(s[..|s| - 1])
    else s
  }

  /**
   * `Request::filled`: the value is present and not blank once trimmed. The
   * password fields reach the controllers untrimmed, so `required` on them
   * and `filled('password')` both come down to this test.
   */
  predicate Filled(s: string)
  {
    Trim(s) != []
  }

  /** A value made only of blanks is not filled, and one with a non-blank character is. */
  lemma {:induction false} FilledIffNonBlank(s: string)
    ensures Filled(s) <==> exists i :: 0 <= i < |s| && !Blank(s[i])
    decreases |s|
  {
    if s != [] && Blank(s[0]) {
      FilledIffNonBlank(s[1..]);
      assert forall i :: 0 <= i < |s[1..]| ==> s[1..][i] == s[i + 1];
      if exists i :: 0 <= i < |s| && !Blank(s[i]) {
        var i :| 0 <= i < |s| && !Blank(s[i]);
        assert i != 0 && s[1..][i - 1] == s[i];
      }
    } else if s != [] && Blank(s[|s| - 1]) {
      FilledIffNonBlank(s[..|s| - 1]);
      assert forall i :: 0 <= i < |s| - 1 ==> s[..|s| - 1][i] == s[i];
      if exists i :: 0 <= i < |s| && !Blank(s[i]) {
        var i :| 0 <= i < |s| && !Blank(s[i]);
        assert i != |s| - 1 && s[..|s| - 1][i] == s[i];
      }
    } else if s != [] {
      assert !Blank(s[0]);
    }
  }
}
