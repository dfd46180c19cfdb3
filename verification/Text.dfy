/** Trimming strings, for the two notions of white space in use. */
module Text {

  function TrimStart(s: string, blank: char -> bool): string {
    if s != [] && blank(s[0]) then TrimStart(s[1..], blank) else s
  }

  function TrimEnd(s: string, blank: char -> bool): string {
    if s != [] && blank(s[|s| - 1]) then TrimEnd(s[..|s| - 1], blank) else s
  }

  function Trim(s: string, blank: char -> bool): string {
    TrimEnd(TrimStart(s, blank), blank)
  }

  /** The characters with the Unicode property White_Space. */
  predicate UnicodeBlank(c: char) {
    || '\t' <= c <= '\r' || c == ' ' || c == '\U{85}' || c == '\U{A0}' || c == '\U{1680}'
    || '\U{2000}' <= c <= '\U{200A}' || c == '\U{2028}' || c == '\U{2029}' || c == '\U{202F}'
    || c == '\U{205F}' || c == '\U{3000}'
  }

  /** ECMAScript's WhiteSpace and LineTerminator: a byte order mark counts, a next-line does not. */
  predicate ScriptBlank(c: char) {
    (UnicodeBlank(c) && c != '\U{85}') || c == '\U{FEFF}'
  }

  function TrimText(s: string): string { Trim(s, UnicodeBlank) }

  function TrimScript(s: string): string { Trim(s, ScriptBlank) }

  ghost predicate AllBlank(s: string, blank: char -> bool) {
    forall i :: 0 <= i < |s| ==> blank(s[i])
  }

  /** What trimming leaves neither starts nor ends with a blank. */
  predicate Tight(s: string, blank: char -> bool) {
    s != "" ==> !blank(s[0]) && !blank(s[|s| - 1])
  }

  lemma {:induction false} TrimStartIsExact(s: string, blank: char -> bool)
    ensures var cut := |s| - |TrimStart(s, blank)|;
            && cut >= 0 && AllBlank(s[..cut], blank) && TrimStart(s, blank) == s[cut..]
            && (cut < |s| ==> !blank(s[cut]))
  {
    if s != [] && blank(s[0]) {
      TrimStartIsExact(s[1..], blank);
      var cut := |s| - |TrimStart(s, blank)|;
      assert s[..cut] == [s[0]] + s[1..][..cut - 1] && s[cut..] == s[1..][cut - 1..];
    }
  }

  lemma {:induction false} TrimEndIsExact(s: string, blank: char -> bool)
    ensures var cut := |TrimEnd(s, blank)|;
            && cut <= |s| && AllBlank(s[cut..], blank) && TrimEnd(s, blank) == s[..cut]
            && (cut > 0 ==> !blank(s[cut - 1]))
  {
    if s != [] && blank(s[|s| - 1]) {
      TrimEndIsExact(s[..|s| - 1], blank);
    }
  }

  /** `t` is `s` less the blanks at both ends, all of them and nothing else. */
  ghost predicate IsTrimOf(t: string, s: string, blank: char -> bool) {
    && Tight(t, blank)
    && exists a, b :: 0 <= a <= b <= |s| && s[a..b] == t && AllBlank(s[..a], blank) && AllBlank(s[b..], blank)
  }

  lemma TrimIsExact(s: string, blank: char -> bool)
    ensures IsTrimOf(Trim(s, blank), s, blank)
  {
    var started := TrimStart(s, blank);
    TrimStartIsExact(s, blank);
    TrimEndIsExact(started, blank);
    var a := |s| - |started|;
    var b := a + |Trim(s, blank)|;
    assert s[a..b] == Trim(s, blank);
    assert s[b..] == started[|Trim(s, blank)|..];
  }

  /** Nothing is left exactly of a text of blanks. */
  lemma TrimIsEmptyIff(s: string, blank: char -> bool)
    ensures Trim(s, blank) == "" <==> AllBlank(s, blank)
  {
    TrimIsExact(s, blank);
    var a, b :| 0 <= a <= b <= |s| && s[a..b] == Trim(s, blank) && AllBlank(s[..a], blank) && AllBlank(s[b..], blank);
    if a == b {
      assert s[..a] + s[b..] == s;
    } else {
      assert s[a..b][0] == s[a];
    }
  }

  /** The characters a trimmed form leaves out are blanks, and those at its ends are not. */
  lemma TightCut(s: string, a: nat, b: nat, blank: char -> bool)
    requires a <= b <= |s| && AllBlank(s[..a], blank) && AllBlank(s[b..], blank) && Tight(s[a..b], blank)
    ensures forall i :: 0 <= i < a || b <= i < |s| ==> blank(s[i])
    ensures a < b ==> !blank(s[a]) && !blank(s[b - 1])
  {
    forall i | 0 <= i < a ensures blank(s[i]) {
      assert s[..a][i] == s[i];
    }
    forall i | b <= i < |s| ensures blank(s[i]) {
      assert s[b..][i - b] == s[i];
    }
    if a < b {
      assert s[a..b][0] == s[a] && s[a..b][b - a - 1] == s[b - 1];
    }
  }

  /** So a text has one trimmed form only. */
  lemma TrimIsUnique(t: string, t': string, s: string, blank: char -> bool)
    requires IsTrimOf(t, s, blank) && IsTrimOf(t', s, blank)
    ensures t == t'
  {
    var a, b :| 0 <= a <= b <= |s| && s[a..b] == t && AllBlank(s[..a], blank) && AllBlank(s[b..], blank);
    var a', b' :| 0 <= a' <= b' <= |s| && s[a'..b'] == t' && AllBlank(s[..a'], blank) && AllBlank(s[b'..], blank);
    TightCut(s, a, b, blank);
    TightCut(s, a', b', blank);
    assert a < b && a' < b' ==> a == a' && b == b';
  }
}
