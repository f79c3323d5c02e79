/** The canonical identifiers of tasks, kinds, capabilities and error codes. */
module Tokens {
  import opened Limits
  import opened Lists
  import opened Platform

  predicate LowerAlphaNumeric(c: char) {
    'a' <= c <= 'z' || '0' <= c <= '9'
  }

  predicate TokenChar(c: char) {
    LowerAlphaNumeric(c) || c == '_' || c == '-' || c == '.'
  }

  /** A lowercase letter, then lowercase letters, digits, '_', '-' and '.'. */
  predicate IsToken(s: string) {
    s != "" && 'a' <= s[0] <= 'z' && forall i :: 1 <= i < |s| ==> TokenChar(s[i])
  }

  /** A lowercase letter or digit, then any of those and '_', '-', '.', ':'. */
  predicate IsTaskId(s: string) {
    s != "" && LowerAlphaNumeric(s[0]) && forall i :: 1 <= i < |s| ==> TokenChar(s[i]) || s[i] == ':'
  }

  method ValidTaskId(value: string) returns (ok: bool)
    ensures ok <==> IsTaskId(value)
  {
    if value == "" {
      return false;
    }
    for index := 0 to |value|
      invariant index > 0 ==> LowerAlphaNumeric(value[0])
      invariant forall i :: 1 <= i < index ==> TokenChar(value[i]) || value[i] == ':'
    {
      var character := value[index];
      if LowerAlphaNumeric(character) {
        continue;
      }
      if index > 0 && (character == '_' || character == '-' || character == '.' || character == ':') {
        continue;
      }
      return false;
    }
    return true;
  }

  method ValidToken(value: string) returns (ok: bool)
    ensures ok <==> IsToken(value)
  {
    if value == "" || value[0] < 'a' || value[0] > 'z' {
      return false;
    }
    for index := 1 to |value|
      invariant forall i :: 1 <= i < index ==> TokenChar(value[i])
    {
      var character := value[index];
      if 'a' <= character <= 'z' || '0' <= character <= '9' ||
         character == '_' || character == '-' || character == '.' {
        continue;
      }
      return false;
    }
    return true;
  }

  lemma TokensArePlain(s: string)
    requires IsToken(s) || IsTaskId(s)
    ensures Ascii(s) && '\0' !in s
  {
    forall c | c in s
      ensures c as int < 128 && c != '\0'
    {
      var i :| 0 <= i < |s| && s[i] == c;
      assert i == 0 || TokenChar(s[i]) || s[i] == ':';
    }
  }

  // ---- the alphabets, letter by letter ----

  const LETTERS := "abcdefghijklmnopqrstuvwxyz"
  const DIGITS := "0123456789"

  lemma LettersAre(c: char)
    ensures c in LETTERS <==> 'a' <= c <= 'z'
  {
    if 'a' <= c <= 'z' {
      assert LETTERS[c as int - 'a' as int] == c;
    }
  }

  lemma DigitsAre(c: char)
    ensures c in DIGITS <==> '0' <= c <= '9'
  {
    if '0' <= c <= '9' {
      assert DIGITS[c as int - '0' as int] == c;
    }
  }

  predicate Spells(first: string, others: string, s: string) {
    s != "" && s[0] in first && forall i :: 1 <= i < |s| ==> s[i] in others
  }

  lemma TokenChars(c: char)
    ensures c in LETTERS + DIGITS <==> LowerAlphaNumeric(c)
    ensures c in LETTERS + DIGITS + "_-." <==> TokenChar(c)
    ensures c in LETTERS + DIGITS + "_-.:" <==> TokenChar(c) || c == ':'
  {
    LettersAre(c);
    DigitsAre(c);
    assert "_-."[0] == '_' && "_-."[1] == '-' && "_-."[2] == '.';
    assert "_-.:"[0] == '_' && "_-.:"[1] == '-' && "_-.:"[2] == '.' && "_-.:"[3] == ':';
  }

  /** Tokens start with a letter, task identifiers with a letter or digit; then come letters, digits and a few
      marks, of which the colon is for identifiers alone. So every token is an identifier. */
  lemma TokensAreSpelled(s: string)
    ensures IsToken(s) <==> Spells(LETTERS, LETTERS + DIGITS + "_-.", s)
    ensures IsTaskId(s) <==> Spells(LETTERS + DIGITS, LETTERS + DIGITS + "_-.:", s)
    ensures IsToken(s) ==> IsTaskId(s)
  {
    forall i | 0 <= i < |s|
      ensures s[i] in LETTERS <==> 'a' <= s[i] <= 'z'
      ensures s[i] in LETTERS + DIGITS <==> LowerAlphaNumeric(s[i])
      ensures s[i] in LETTERS + DIGITS + "_-." <==> TokenChar(s[i])
      ensures s[i] in LETTERS + DIGITS + "_-.:" <==> TokenChar(s[i]) || s[i] == ':'
    {
      LettersAre(s[i]);
      TokenChars(s[i]);
    }
  }

  // ---- capabilities ----

  function Self(s: string): string {
    s
  }

  predicate AcceptedCapabilities(capabilities: seq<string>) {
    && |capabilities| <= MAX_CAPABILITIES_PER_REPORT
    && (forall i :: 0 <= i < |capabilities| ==> IsToken(capabilities[i]) && |capabilities[i]| <= MAX_CAPABILITY_BYTES)
    && Distinct(Self, capabilities)
  }

  method ValidateCapabilities(capabilities: seq<string>) returns (ok: bool)
    ensures ok <==> AcceptedCapabilities(capabilities)
  {
    if |capabilities| > MAX_CAPABILITIES_PER_REPORT {
      return false;
    }
    var seen := {};
    for n := 0 to |capabilities|
      invariant forall i :: 0 <= i < n ==> IsToken(capabilities[i]) && |capabilities[i]| <= MAX_CAPABILITY_BYTES
      invariant seen == KeySet(Self, capabilities[..n])
      invariant Distinct(Self, capabilities[..n])
    {
      var capability := capabilities[n];
      var canonical := ValidToken(capability);
      if !canonical || |capability| > MAX_CAPABILITY_BYTES {
        return false;
      }
      ExtendKeys(Self, capabilities, n);
      DistinctPrefix(Self, capabilities, n + 1);
      if capability in seen {
        return false;
      }
      seen := seen + {capability};
    }
    assert capabilities[..|capabilities|] == capabilities;
    return true;
  }
}
