/** Reports on which the wire changes a verdict or fails, one for each condition of the wire format's law.
    Live addresses are checked as addresses, not as text, and an IPv6 zone is kept by netip byte for
    byte; and the base validator does not look at the host sample. */
module WireCounterexamples {
  import opened Wrappers
  import opened Lists
  import opened Platform
  import opened Versions
  import opened Keys
  import opened Hex
  import opened Tokens
  import opened ObjectState
  import opened HostSample
  import opened Report
  import opened ReportJson
  import opened ReportCodec
  import opened WireVerdict

  // ---- a lawful library ----

  const LINK_LOCAL := "fe80::1%"
  const MARK := '\U{EF}'

  predicate AsciiOrMarked(s: string) {
    forall c :: c in s ==> c as int < 128 || c == MARK
  }

  function Marked(s: string): (r: string)
    ensures |r| == |s|
    ensures forall i :: 0 <= i < |s| ==> r[i] == if s[i] as int < 128 then s[i] else MARK
  {
    seq(|s|, i requires 0 <= i < |s| => if s[i] as int < 128 then s[i] else MARK)
  }

  function ParseLinkLocal(s: string): Option<Addr> {
    if LINK_LOCAL <= s && |s| > 8 then Some(Addr(1, true, s[8..])) else None
  }

  /** A library whose text is ASCII and one replacement mark, and whose addresses are link-local ones
      with a zone. */
  const MARKING := Library(
    s => AsciiOrMarked(s), s => Marked(s), s => s, s => ParseLinkLocal(s),
    (a: Addr) => LINK_LOCAL + a.zone, (ms: int) => "",
    s => seq(32, i => 0))

  lemma MarkedTextIsValid(s: string)
    ensures AsciiOrMarked(Marked(s))
    ensures AsciiOrMarked(s) ==> Marked(s) == s
    ensures Ascii(Marked(s)) ==> Marked(s) == s
  {
    assert forall i :: 0 <= i < |s| ==> s[i] in s && Marked(s)[i] in Marked(s);
  }

  lemma MarkingIsLawful()
    ensures LawfulText(MARKING) && LawfulTime(MARKING) && LawfulHash(MARKING)
  {
    forall s
      ensures MARKING.validUtf8(MARKING.cleanUtf8(s))
      ensures MARKING.validUtf8(s) ==> MARKING.cleanUtf8(s) == s
      ensures Ascii(MARKING.cleanUtf8(s)) ==> MARKING.cleanUtf8(s) == s
    {
      MarkedTextIsValid(s);
    }
  }

  /** And its addresses behave as those of netip. */
  lemma MarkingHasLawfulAddresses()
    ensures LawfulAddresses(MARKING)
  {
    forall s | CanonicalAddr(MARKING, s)
      ensures CanonicalAddr(MARKING, MARKING.cleanUtf8(s))
    {
      var t := Marked(s);
      assert LINK_LOCAL <= s && |s| > 8;
      forall i | 0 <= i < |LINK_LOCAL|
        ensures t[i] == LINK_LOCAL[i]
      {
        assert s[i] == LINK_LOCAL[i] && Ascii(LINK_LOCAL);
      }
      assert LINK_LOCAL <= t;
      assert t == LINK_LOCAL + t[8..];
    }
  }

  // ---- addresses ----

  const ZONE_A := "fe80::1%\U{FE}"
  const ZONE_B := "fe80::1%\U{FF}"

  const NOTHING_HELD := StreamState(NO_VERSION, "")
  const EMPTY_HAVE := map[STREAM_CONFIG := NOTHING_HELD, STREAM_ROSTER := NOTHING_HELD, STREAM_DIRECTIVES :=
      NOTHING_HELD]

  const TWO_ZONES := NodeReport(
    "agent-1", 0, 0, "", "", "", "", [], false, EMPTY_HAVE,
    Nil, Nil, Elems([ClientCounters("cli_1", true, 0, 0, 0, GateUnconfigured, [ZONE_A, ZONE_B])]), [], None, [], [])

  lemma TwoZonesAreDistinct()
    ensures AcceptedLiveIPs(MARKING, [ZONE_A, ZONE_B])
    ensures !AcceptedLiveIPs(MARKING, Map(CleanText(MARKING), [ZONE_A, ZONE_B]))
  {
    var ips := [ZONE_A, ZONE_B];
    assert ZONE_A[8] != ZONE_B[8];
    assert ZONE_A == LINK_LOCAL + ZONE_A[8..] && ZONE_B == LINK_LOCAL + ZONE_B[8..];
    DistinctMeans(Self, ips);
    var cleaned := Map(CleanText(MARKING), ips);
    assert cleaned[0] == cleaned[1];
    DistinctMeans(Self, cleaned);
    assert Self(cleaned[0]) == Self(cleaned[1]);
  }

  lemma ClientIsAccepted(c: ClientCounters)
    requires c == ClientCounters("cli_1", true, 0, 0, 0, GateUnconfigured, [ZONE_A, ZONE_B])
    ensures AcceptedClients(MARKING, [c])
  {
    TwoZonesAreDistinct();
    RowIdIsMintInverse(ClientKey, "cli_1", 1);
    assert "cli_1" == Mint(ClientKey, 1);
  }

  lemma TwoZonesAreAccepted()
    ensures AcceptedReport(MARKING, TWO_ZONES)
  {
    ClientIsAccepted(TWO_ZONES.clients.Elements()[0]);
    assert TWO_ZONES.have.Keys == STREAMS;
  }

  /** Two addresses whose zones differ only in a byte that is not UTF-8 arrive as one text: both
      validators accept the report where it is sent and refuse what arrives. */
  lemma ZonesThatAreNotUtf8DoNotSurvive(validFigures: string -> bool)
    ensures LawfulText(MARKING) && LawfulAddresses(MARKING)
    ensures AcceptedReport(MARKING, TWO_ZONES) && AcceptedBySender(MARKING, validFigures, TWO_ZONES)
    ensures MarshalReport(MARKING, TWO_ZONES).Some?
    ensures var decoded := DecodeReport(MarshalReport(MARKING, TWO_ZONES).value);
            && decoded.Some?
            && !AcceptedReport(MARKING, decoded.value)
            && !AcceptedBySender(MARKING, validFigures, decoded.value)
  {
    MarkingIsLawful();
    MarkingHasLawfulAddresses();
    TwoZonesAreDistinct();
    TwoZonesAreAccepted();
    AcceptedReportsSurviveTheWire(MARKING, validFigures, TWO_ZONES);
    assert TWO_ZONES.clients.Elements()[0] in TWO_ZONES.clients.Elements();
  }

  // ---- host samples ----

  const SAMPLE_ID := "00112233445566778899aabbccddeeff"

  /** The texts of a sample that has all its mandatory ones, and no optional section but the load. */
  function SampleTexts(os: string): seq<HostText> {
    [HostText(SampleId, SAMPLE_ID), HostText(Deployment, "manual"), HostText(ResourceScope, "host"),
     HostText(DataFilesystemScope, "unknown"), HostText(OS, os), HostText(Arch, "amd64")]
  }

  /** A report with no more than a host sample, of an operating system of that name and that load. */
  function Telemetry(os: string, load: Float): NodeReport {
    NodeReport("agent-1", 0, 0, "", "", "", "", [CAPABILITY_HOST_TELEMETRY], true, EMPTY_HAVE, Nil, Nil, Nil, [],
               Some(HostObservation(SampleTexts(os), [load, load, load], "")), [], [])
  }

  lemma TelemetryIsAccepted(os: string, load: Float)
    ensures AcceptedReport(MARKING, Telemetry(os, load))
  {
    assert IsToken(CAPABILITY_HOST_TELEMETRY);
    assert Telemetry(os, load).have.Keys == STREAMS;
  }

  const BAD_NAME := "\U{FF}"

  lemma SampleIdIsHex()
    ensures |SAMPLE_ID| == 32 && LowerHex(SAMPLE_ID)
  {}

  lemma SampleTextArrives(t: HostText)
    requires t in SampleTexts(BAD_NAME)
    ensures TextArrives(MARKING, RuleOf(t.field), t.text)
  {
    if t.field == SampleId {
      SampleIdIsHex();
    } else if t.field == OS || t.field == Arch {
      assert |MARKING.cleanUtf8(t.text)| == |t.text|;
    }
  }

  lemma SampleTextsArrive()
    ensures forall t :: t in SampleTexts(BAD_NAME) ==> TextArrives(MARKING, RuleOf(t.field), t.text)
  {
    forall t | t in SampleTexts(BAD_NAME)
      ensures TextArrives(MARKING, RuleOf(t.field), t.text)
    {
      SampleTextArrives(t);
    }
  }

  lemma BadNameIsNotUtf8(h: HostObservation)
    requires h.texts == SampleTexts(BAD_NAME)
    ensures !Utf8Host(MARKING, h)
  {
    assert BAD_NAME[0] in BAD_NAME;
    assert h.texts[4] in h.texts;
  }

  lemma NothingIsNamed(texts: seq<HostText>)
    requires forall i :: 0 <= i < |texts| ==> !NamesOneThing(texts[i].field)
    ensures NamesAreDistinct(Map(CleanHostText(MARKING), texts))
  {}

  lemma SampleNamesNothing(texts: seq<HostText>)
    requires texts == SampleTexts(BAD_NAME)
    ensures NamesAreDistinct(Map(CleanHostText(MARKING), texts))
  {
    forall i | 0 <= i < |texts|
      ensures !NamesOneThing(texts[i].field)
    {}
    NothingIsNamed(texts);
  }

  lemma BadNameArrives(validFigures: string -> bool, h: HostObservation)
    requires h == HostObservation(SampleTexts(BAD_NAME), [Finite(1.0), Finite(1.0), Finite(1.0)], "")
             && validFigures("")
    ensures ArrivesValid(MARKING, validFigures, h)
  {
    SampleTextsArrive();
    SampleNamesNothing(h.texts);
  }

  lemma BadSampleIsLetIn(validFigures: string -> bool, r: NodeReport)
    requires validFigures("") && r == Telemetry(BAD_NAME, Finite(1.0))
    ensures AcceptedReport(MARKING, r) && StableAddresses(MARKING, r) && HostEncodes(r)
    ensures HostArrivesValid(MARKING, validFigures, r) && r.host.Some? && !Utf8Host(MARKING, r.host.value)
  {
    TelemetryIsAccepted(BAD_NAME, Finite(1.0));
    BadNameArrives(validFigures, r.host.value);
    BadNameIsNotUtf8(r.host.value);
  }

  /** A sample with an operating system of one byte that is not UTF-8: the sender's check refuses it where
      it is sent, and accepts what arrives, although no address is involved. */
  lemma SamplesThatAreNotUtf8AreLetIn(validFigures: string -> bool, r: NodeReport)
    requires validFigures("") && r == Telemetry(BAD_NAME, Finite(1.0))
    ensures LawfulText(MARKING) && AcceptedReport(MARKING, r) && StableAddresses(MARKING, r)
    ensures !AcceptedBySender(MARKING, validFigures, r)
    ensures MarshalReport(MARKING, r).Some?
    ensures var decoded := DecodeReport(MarshalReport(MARKING, r).value);
            decoded.Some? && AcceptedBySender(MARKING, validFigures, decoded.value)
  {
    MarkingIsLawful();
    BadSampleIsLetIn(validFigures, r);
    SamplesLetIn(MARKING, validFigures, r);
  }

  /** A load average that is no number: the base validator accepts the report, which cannot be encoded. */
  lemma LoadsThatAreNoNumberAreNotEncoded(os: string)
    ensures AcceptedReport(MARKING, Telemetry(os, NaN)) && MarshalReport(MARKING, Telemetry(os, NaN)).None?
  {
    TelemetryIsAccepted(os, NaN);
  }
}
