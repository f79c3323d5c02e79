/** The Go standard library as a parameter.

    A Go string or []byte is a sequence of bytes; here it is a `string`, one char per byte,
    so |s| is Go's len(s). What the protocol asks of the standard library is a record of
    functions, and every theorem holds for all such records (some only for lawful ones). */
module Platform {
  import opened Wrappers
  import opened Ints

  type Bytes = string

  /** netip.Addr: two addresses are the same when all their parts are. */
  datatype Addr = Addr(bits: nat, is6: bool, zone: string)

  datatype Library = Library(
    validUtf8: string -> bool,            // utf8.ValidString
    cleanUtf8: string -> string,          // the text json.Unmarshal recovers from json.Marshal of a string
    trimSpace: string -> string,          // strings.TrimSpace
    parseAddr: string -> Option<Addr>,    // netip.ParseAddr
    addrString: Addr -> string,           // netip.Addr.String
    formatTime: int -> string,            // time.UnixMilli(ms).UTC().Format(time.RFC3339)
    sha256: Bytes -> seq<byte>            // sha256.Sum256
  )

  predicate Ascii(s: string) {
    forall c :: c in s ==> c as int < 128
  }

  /** ASCII text is valid UTF-8. */
  ghost predicate AsciiIsUtf8(lib: Library) {
    forall s :: Ascii(s) ==> lib.validUtf8(s)
  }

  /** And encoding/json leaves valid text alone, and replaces what is not valid, never by nothing and
      never by ASCII. */
  ghost predicate LawfulText(lib: Library) {
    && AsciiIsUtf8(lib)
    && (forall s :: lib.validUtf8(lib.cleanUtf8(s)))
    && (forall s :: lib.validUtf8(s) ==> lib.cleanUtf8(s) == s)
    && (forall s :: s != "" ==> lib.cleanUtf8(s) != "")
    && (forall s :: Ascii(lib.cleanUtf8(s)) ==> lib.cleanUtf8(s) == s)
  }

  /** A formatted time is short ASCII, even for the years an int64 of milliseconds can reach. */
  ghost predicate LawfulTime(lib: Library) {
    forall ms :: Ascii(lib.formatTime(ms)) && |lib.formatTime(ms)| <= 64
  }

  /** sha256.Sum256 returns 32 bytes. */
  ghost predicate LawfulHash(lib: Library) {
    forall s :: |lib.sha256(s)| == 32
  }

  lemma AsciiConcat(a: string, b: string)
    ensures Ascii(a + b) <==> Ascii(a) && Ascii(b)
  {
    assert forall c :: c in a + b <==> c in a || c in b;
  }

  /** A separator after a part that has none marks where that part ends. */
  lemma SeparatorSplits(sep: char, k1: string, a1: Bytes, k2: string, a2: Bytes)
    requires sep !in k1 && sep !in k2
    requires k1 + [sep] + a1 == k2 + [sep] + a2
    ensures k1 == k2 && a1 == a2
  {
    var t := k1 + [sep] + a1;
    assert t[|k1|] == sep && t[|k2|] == sep;
    assert forall i :: 0 <= i < |k1| ==> t[i] in k1;
    assert forall i :: 0 <= i < |k2| ==> t[i] in k2;
    assert |k1| == |k2|;
    assert k1 == t[..|k1|] && a1 == t[|k1| + 1..];
    assert k2 == t[..|k2|] && a2 == t[|k2| + 1..];
  }
}
