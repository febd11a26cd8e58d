/**
 The three regular expressions the job application validator tests field
 values against, each written out as a recursive matcher over `string`, next
 to a declarative description of the strings the pattern accepts and a lemma
 proving that the two agree.

 - phone number: `^\d+$`                         (PhoneMatches / AllDigitsSpec)
 - e-mail:       `\S+@\S+\.\S+`, unanchored      (EmailMatches / EmailShaped)
 - portfolio:    `^(ftp|http|https):\/\/[^ "]+$` (UrlMatches / UrlShaped)
 */
module Patterns {

  /** `\d` in a JavaScript regular expression without the `u` flag: ASCII digits only. */
  predicate IsDigit(c: char) {
    '0' <= c <= '9'
  }

  /** `\s` in a JavaScript regular expression: the WhiteSpace and LineTerminator code points. */
  predicate IsWhitespace(c: char) {
    || c == ' ' || c == '\t' || c == '\n' || c == '\r'
    || c == '\U{000B}' || c == '\U{000C}' || c == '\U{00A0}' || c == '\U{1680}'
    || ('\U{2000}' <= c <= '\U{200A}')
    || c == '\U{2028}' || c == '\U{2029}' || c == '\U{202F}' || c == '\U{205F}'
    || c == '\U{3000}' || c == '\U{FEFF}'
  }

  // ---------------------------------------------------------------------------
  // Phone number: ^\d+$

  /** Every character of `s` is a digit (true of the empty string). */
  predicate AllDigits(s: string) {
    |s| == 0 || (IsDigit(s[0]) && AllDigits(s[1..]))
  }

  /** `/^\d+$/.test(s)`: one or more digits and nothing else. */
  predicate PhoneMatches(s: string) {
    |s| > 0 && AllDigits(s)
  }

  lemma {:induction false} AllDigitsSpec(s: string)
    ensures AllDigits(s) <==> forall i :: 0 <= i < |s| ==> IsDigit(s[i])
  {
    if |s| > 0 {
      AllDigitsSpec(s[1..]);
      assert forall i :: 1 <= i < |s| ==> s[i] == s[1..][i - 1];
    }
  }

  // ---------------------------------------------------------------------------
  // E-mail address: \S+@\S+\.\S+ searched for anywhere in the string

  /** No character of `w` is whitespace, i.e. `w` is in `\S*`. */
  ghost predicate NoWhitespace(w: string) {
    forall k :: 0 <= k < |w| ==> !IsWhitespace(w[k])
  }

  /**
   The declarative reading of the e-mail pattern: some window `s[i..j]`
   contains no whitespace and has an `@` at `p` and a `.` at `q`, with at
   least one character before the `@`, at least one between `@` and `.`, and
   at least one after the `.`.
   */
  ghost predicate EmailShaped(s: string) {
    exists i, p, q, j ::
      0 <= i < p && p + 1 < q && q + 1 < j <= |s| &&
      s[p] == '@' && s[q] == '.' && NoWhitespace(s[i..j])
  }

  /** `t` begins with a match of `\S+\.\S+`. */
  predicate DotTail(t: string) {
    |t| >= 3 && !IsWhitespace(t[0]) &&
    ((t[1] == '.' && !IsWhitespace(t[2])) || DotTail(t[1..]))
  }

  /** `s` begins with a match of `\S+@\S+\.\S+`. */
  predicate AtDotTail(s: string) {
    |s| >= 5 && !IsWhitespace(s[0]) &&
    ((s[1] == '@' && DotTail(s[2..])) || AtDotTail(s[1..]))
  }

  /** `/\S+@\S+\.\S+/.test(s)`: a match begins at some position of `s`. */
  predicate EmailMatches(s: string) {
    AtDotTail(s) || (|s| > 0 && EmailMatches(s[1..]))
  }

  lemma {:induction false} DotTailWitness(t: string) returns (q: nat, j: nat)
    requires DotTail(t)
    ensures 0 < q && q + 1 < j <= |t| && t[q] == '.' && NoWhitespace(t[..j])
  {
    if t[1] == '.' && !IsWhitespace(t[2]) {
      q, j := 1, 3;
    } else {
      var q', j' := DotTailWitness(t[1..]);
      q, j := q' + 1, j' + 1;
      assert t[..j] == [t[0]] + t[1..][..j'];
    }
  }

  lemma {:induction false} DotTailFrom(t: string, q: nat, j: nat)
    requires 0 < q && q + 1 < j <= |t| && t[q] == '.' && NoWhitespace(t[..j])
    ensures DotTail(t)
  {
    assert t[..j][0] == t[0] && t[..j][2] == t[2];
    if q > 1 {
      assert t[1..][..j - 1] == t[..j][1..];
      DotTailFrom(t[1..], q - 1, j - 1);
    }
  }

  lemma {:induction false} AtDotTailWitness(s: string) returns (p: nat, q: nat, j: nat)
    requires AtDotTail(s)
    ensures 0 < p && p + 1 < q && q + 1 < j <= |s|
    ensures s[p] == '@' && s[q] == '.' && NoWhitespace(s[..j])
  {
    if s[1] == '@' && DotTail(s[2..]) {
      var q', j' := DotTailWitness(s[2..]);
      p, q, j := 1, q' + 2, j' + 2;
      assert s[..j] == [s[0], s[1]] + s[2..][..j'];
    } else {
      var p', q', j' := AtDotTailWitness(s[1..]);
      p, q, j := p' + 1, q' + 1, j' + 1;
      assert s[..j] == [s[0]] + s[1..][..j'];
    }
  }

  lemma {:induction false} AtDotTailFrom(s: string, p: nat, q: nat, j: nat)
    requires 0 < p && p + 1 < q && q + 1 < j <= |s|
    requires s[p] == '@' && s[q] == '.' && NoWhitespace(s[..j])
    ensures AtDotTail(s)
  {
    assert s[..j][0] == s[0];
    if p == 1 {
      assert s[2..][..j - 2] == s[..j][2..];
      DotTailFrom(s[2..], q - 2, j - 2);
    } else {
      assert s[1..][..j - 1] == s[..j][1..];
      AtDotTailFrom(s[1..], p - 1, q - 1, j - 1);
    }
  }

  lemma {:induction false} EmailMatchesWitness(s: string) returns (i: nat, p: nat, q: nat, j: nat)
    requires EmailMatches(s)
    ensures i < p && p + 1 < q && q + 1 < j <= |s|
    ensures s[p] == '@' && s[q] == '.' && NoWhitespace(s[i..j])
  {
    if AtDotTail(s) {
      i := 0;
      p, q, j := AtDotTailWitness(s);
      assert s[0..j] == s[..j];
    } else {
      var i', p', q', j' := EmailMatchesWitness(s[1..]);
      i, p, q, j := i' + 1, p' + 1, q' + 1, j' + 1;
      assert s[1..][i'..j'] == s[i..j];
    }
  }

  lemma {:induction false} EmailMatchesFrom(s: string, i: nat, p: nat, q: nat, j: nat)
    requires i < p && p + 1 < q && q + 1 < j <= |s|
    requires s[p] == '@' && s[q] == '.' && NoWhitespace(s[i..j])
    ensures EmailMatches(s)
  {
    if i == 0 {
      assert s[..j] == s[i..j];
      AtDotTailFrom(s, p, q, j);
    } else {
      assert s[1..][i - 1..j - 1] == s[i..j];
      EmailMatchesFrom(s[1..], i - 1, p - 1, q - 1, j - 1);
    }
  }

  /** The recursive matcher accepts exactly the strings the pattern describes. */
  lemma EmailMatchesSpec(s: string)
    ensures EmailMatches(s) <==> EmailShaped(s)
  {
    if EmailMatches(s) {
      var i, p, q, j := EmailMatchesWitness(s);
    }
    if EmailShaped(s) {
      var i, p, q, j :| 0 <= i < p && p + 1 < q && q + 1 < j <= |s| &&
        s[p] == '@' && s[q] == '.' && NoWhitespace(s[i..j]);
      EmailMatchesFrom(s, i, p, q, j);
    }
  }

  // ---------------------------------------------------------------------------
  // Portfolio URL: ^(ftp|http|https):\/\/[^ "]+$

  /** The alternatives of the scheme group, in the order the pattern lists them. */
  const Schemes: seq<string> := ["ftp", "http", "https"]

  /** The string the pattern's two halves concatenate to. */
  function Url(scheme: string, rest: string): string {
    scheme + "://" + rest
  }

  /** Every character of `t` is in the class `[^ "]` (true of the empty string). */
  predicate UrlBodyOk(t: string) {
    |t| == 0 || (t[0] != ' ' && t[0] != '"' && UrlBodyOk(t[1..]))
  }

  /** `s` is `scheme://` followed by one or more characters of `[^ "]`. */
  predicate SchemeThenBody(s: string, scheme: string) {
    var prefix := scheme + "://";
    |prefix| < |s| && s[..|prefix|] == prefix && UrlBodyOk(s[|prefix|..])
  }

  /** `/^(ftp|http|https):\/\/[^ "]+$/.test(s)`, trying the alternatives in order. */
  predicate UrlMatches(s: string) {
    SchemeThenBody(s, "ftp") || SchemeThenBody(s, "http") || SchemeThenBody(s, "https")
  }

  /** `t` is in `[^ "]+`: non-empty, with no space and no double quote. */
  ghost predicate UrlBody(t: string) {
    |t| > 0 && forall k :: 0 <= k < |t| ==> t[k] != ' ' && t[k] != '"'
  }

  /** The declarative reading: a listed scheme, `://`, then a body of `[^ "]+`. */
  ghost predicate UrlShaped(s: string) {
    exists scheme, rest :: s == Url(scheme, rest) && scheme in Schemes && UrlBody(rest)
  }

  lemma {:induction false} UrlBodySpec(t: string)
    ensures UrlBodyOk(t) <==> forall k :: 0 <= k < |t| ==> t[k] != ' ' && t[k] != '"'
  {
    if |t| > 0 {
      UrlBodySpec(t[1..]);
      assert forall k :: 1 <= k < |t| ==> t[k] == t[1..][k - 1];
    }
  }

  /** What the matcher accepts for one scheme splits into that scheme, `://` and a body. */
  lemma SchemeThenBodyParts(s: string, scheme: string)
    requires SchemeThenBody(s, scheme)
    ensures s == Url(scheme, s[|scheme| + 3..]) && UrlBody(s[|scheme| + 3..])
  {
    var n := |scheme + "://"|;
    UrlBodySpec(s[n..]);
    assert s == s[..n] + s[n..];
  }

  /** Every scheme, `://` and body is accepted by the matcher for that scheme. */
  lemma SchemeThenBodyFrom(scheme: string, rest: string)
    requires UrlBody(rest)
    ensures SchemeThenBody(Url(scheme, rest), scheme)
  {
    var s := Url(scheme, rest);
    var n := |scheme + "://"|;
    assert s[..n] == scheme + "://" && s[n..] == rest;
    UrlBodySpec(rest);
  }

  /** The matcher accepts exactly the strings the pattern describes. */
  lemma UrlMatchesSpec(s: string)
    ensures UrlMatches(s) <==> UrlShaped(s)
  {
    if UrlMatches(s) {
      var scheme :=
        if SchemeThenBody(s, "ftp") then "ftp"
        else if SchemeThenBody(s, "http") then "http"
        else "https";
      SchemeThenBodyParts(s, scheme);
      assert scheme in Schemes;
      var rest := s[|scheme| + 3..];
      assert s == Url(scheme, rest) && scheme in Schemes && UrlBody(rest);
    }
    if UrlShaped(s) {
      var scheme, rest :| s == Url(scheme, rest) && scheme in Schemes && UrlBody(rest);
      SchemeThenBodyFrom(scheme, rest);
    }
  }

  // ---------------------------------------------------------------------------
  // The sample values the form's behaviour is illustrated with

  lemma EmailSamples()
    ensures EmailMatches("jo@x.com") && !EmailMatches("bad")
  {
    var s := "jo@x.com";
    assert NoWhitespace(s[1..6]);
    EmailMatchesFrom(s, 1, 2, 4, 6);
  }

  lemma UrlSamples()
    ensures UrlMatches("http://a.com") && !UrlMatches("notaurl")
  {
    assert "http://a.com"[..7] == "http" + "://";
    assert UrlBodyOk("http://a.com"[7..]);
    assert "notaurl"[..6][0] == 'n';
  }
}
