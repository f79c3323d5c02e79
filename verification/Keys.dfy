/** Row-id keys: a prefix and the canonical decimal of a positive int64. */
module Keys {
  import opened Wrappers
  import opened Ints
  import opened Platform

  datatype KeyKind = ListenerKey | ClientKey | SubjectKey {
    function Prefix(): (p: string)
      ensures |p| == 4 && Ascii(p)
    {
      match this
      case ListenerKey => "lst_"
      case ClientKey => "cli_"
      case SubjectKey => "usr_"
    }
  }

  // ---- strconv ----

  predicate IsDigit(c: char) {
    '0' <= c <= '9'
  }

  predicate AllDigits(s: string) {
    forall i :: 0 <= i < |s| ==> IsDigit(s[i])
  }

  function Digit(d: int): (c: char)
    requires 0 <= d < 10
    ensures IsDigit(c) && c as int == '0' as int + d
  {
    ('0' as int + d) as char
  }

  function DigitValue(c: char): (d: int)
    requires IsDigit(c)
    ensures 0 <= d < 10
  {
    c as int - '0' as int
  }

  function Decimal(n: nat): string {
    if n < 10 then [Digit(n)] else Decimal(n / 10) + [Digit(n % 10)]
  }

  function DecimalValue(s: string): nat
    requires AllDigits(s)
  {
    if s == [] then 0 else 10 * DecimalValue(s[..|s| - 1]) + DigitValue(s[|s| - 1])
  }

  /** strconv.FormatInt(n, 10). */
  function FormatInt(n: int64): string {
    var m: int := n;
    if m < 0 then "-" + Decimal(-m) else Decimal(m)
  }

  /** strconv.ParseInt(s, 10, 64): an optional sign, then digits of any number that fits. */
  function ParseInt(s: string): Option<int64> {
    if s == "" then None else
    var signed := s[0] == '+' || s[0] == '-';
    var digits := if signed then s[1..] else s;
    if digits == "" || !AllDigits(digits) then None else
    var n: int := DecimalValue(digits);
    if s[0] == '-' then
      if n > MAX_INT64 + 1 then None else Some(-n)
    else
      if n > MAX_INT64 then None else Some(n)
  }

  // ---- keys ----

  /** NewListenerKey, NewClientKey, NewSubjectKey. */
  function Mint(kind: KeyKind, id: int64): string {
    kind.Prefix() + FormatInt(id)
  }

  function ParseOrZero(s: string): int64 {
    match ParseInt(s)
    case Some(n) => n
    case None => 0
  }

  function RowId(kind: KeyKind, s: string): Option<int64> {
    if !(kind.Prefix() <= s) then None else
    var rest := s[|kind.Prefix()|..];
    var n := ParseOrZero(rest);
    if n <= 0 || rest != FormatInt(n) then None else Some(n)
  }

  // ---- the printer and the parser are inverse ----

  lemma {:induction false} DecimalRoundTrip(n: nat)
    ensures AllDigits(Decimal(n)) && Decimal(n) != ""
    ensures DecimalValue(Decimal(n)) == n
    ensures n > 0 ==> Decimal(n)[0] != '0'
  {
    if n >= 10 {
      DecimalRoundTrip(n / 10);
      assert Decimal(n)[..|Decimal(n)| - 1] == Decimal(n / 10);
    }
  }

  /** Digits without a leading zero. */
  predicate Canonical(s: string) {
    s != "" && AllDigits(s) && s[0] != '0'
  }

  lemma {:induction false} ValueRoundTrip(s: string)
    requires Canonical(s)
    ensures DecimalValue(s) > 0 && Decimal(DecimalValue(s)) == s
  {
    var init, last := s[..|s| - 1], s[|s| - 1];
    assert s == init + [last];
    if init == "" {
      assert DecimalValue(init) == 0;
      assert s[0] == last;
    } else {
      ValueRoundTrip(init);
      assert DecimalValue(s) / 10 == DecimalValue(init) && DecimalValue(s) % 10 == DigitValue(last);
    }
  }

  function Power10(k: nat): nat {
    if k == 0 then 1 else 10 * Power10(k - 1)
  }

  lemma {:induction false} DecimalLength(n: nat, k: nat)
    requires k > 0 && n < Power10(k)
    ensures |Decimal(n)| <= k
  {
    if n >= 10 {
      assert n / 10 < Power10(k - 1);
      DecimalLength(n / 10, k - 1);
    }
  }

  lemma ParseMinted(n: int64)
    requires n > 0
    ensures ParseInt(FormatInt(n)) == Some(n)
  {
    DecimalRoundTrip(n);
    assert IsDigit(Decimal(n)[0]);
  }

  // ---- the bijection ----

  /** A key parses to a row id exactly when it is the key minted from that id. */
  lemma RowIdIsMintInverse(kind: KeyKind, s: string, n: int64)
    ensures RowId(kind, s) == Some(n) <==> n > 0 && s == Mint(kind, n)
  {
    var p := kind.Prefix();
    if n > 0 && s == Mint(kind, n) {
      assert s[|p|..] == FormatInt(n);
      ParseMinted(n);
    }
    if RowId(kind, s) == Some(n) {
      assert s == p + s[|p|..];
    }
  }

  /** The strings that parse, said without the printer: the prefix, then digits with no leading
      zero (so no sign, no padding, not empty) of a number that fits int64. */
  lemma RowIdAcceptsCanonicalDecimals(kind: KeyKind, s: string)
    ensures RowId(kind, s).Some? <==>
            kind.Prefix() <= s && Canonical(s[4..]) && DecimalValue(s[4..]) <= MAX_INT64
    ensures RowId(kind, s).Some? ==> RowId(kind, s).value == DecimalValue(s[4..])
  {
    if kind.Prefix() <= s {
      var rest := s[4..];
      if Canonical(rest) && DecimalValue(rest) <= MAX_INT64 {
        ValueRoundTrip(rest);
        ParseMinted(DecimalValue(rest));
      }
      if RowId(kind, s).Some? {
        DecimalRoundTrip(RowId(kind, s).value);
      }
    }
  }

  /** What the keys of each kind look like. */
  lemma KeysAreNamed(kind: KeyKind, s: string)
    ensures RowId(kind, s).Some? <==>
            && |s| >= 4 && Canonical(s[4..])
            && DecimalValue(s[4..]) <= MAX_INT64
            && match kind
               case ListenerKey => s[..4] == "lst_"
               case ClientKey => s[..4] == "cli_"
               case SubjectKey => s[..4] == "usr_"
  {
    RowIdAcceptsCanonicalDecimals(kind, s);
  }

  /** The key of row `id`. */
  lemma MintedKeys(id: int64)
    requires id > 0
    ensures Mint(ListenerKey, id) == "lst_" + Decimal(id) && RowId(ListenerKey, "lst_" + Decimal(id)) == Some(id)
    ensures Mint(ClientKey, id) == "cli_" + Decimal(id) && RowId(ClientKey, "cli_" + Decimal(id)) == Some(id)
    ensures Mint(SubjectKey, id) == "usr_" + Decimal(id) && RowId(SubjectKey, "usr_" + Decimal(id)) == Some(id)
  {
    RowIdIsMintInverse(ListenerKey, "lst_" + Decimal(id), id);
    RowIdIsMintInverse(ClientKey, "cli_" + Decimal(id), id);
    RowIdIsMintInverse(SubjectKey, "usr_" + Decimal(id), id);
  }

  /** No string is a key of two kinds, and no two strings of one kind share a row id. */
  lemma KeysIdentifyRows(k1: KeyKind, k2: KeyKind, s: string, t: string)
    requires RowId(k1, s).Some? && RowId(k2, t).Some?
    ensures k1 == k2 && RowId(k1, s) == RowId(k2, t) ==> s == t
    ensures s == t ==> k1 == k2
  {
    RowIdIsMintInverse(k1, s, RowId(k1, s).value);
    RowIdIsMintInverse(k2, t, RowId(k2, t).value);
    assert k1 != k2 ==> k1.Prefix()[0] != k2.Prefix()[0];
    assert s[0] == k1.Prefix()[0] && t[0] == k2.Prefix()[0];
  }

  /** A parsed key is short ASCII, so the size and UTF-8 checks made on keys elsewhere cannot fail. */
  lemma KeysAreShortAscii(kind: KeyKind, s: string)
    requires RowId(kind, s).Some?
    ensures Ascii(s) && |s| <= 23
  {
    RowIdAcceptsCanonicalDecimals(kind, s);
    var n := DecimalValue(s[4..]);
    ValueRoundTrip(s[4..]);
    assert Power10(19) == 10_000_000_000_000_000_000 by {
      assert Power10(5) == 100_000;
      assert Power10(10) == 10_000_000_000;
      assert Power10(15) == 1_000_000_000_000_000;
    }
    DecimalLength(n, 19);
    assert s == kind.Prefix() + s[4..];
    forall c | c in s
      ensures c as int < 128
    {
      assert c in kind.Prefix() || c in s[4..];
    }
  }
}
