/** The host telemetry sample: what its texts and floating-point figures have to be, and what is left
    of them once encoding/json has carried them. */
module HostSample {
  import opened Limits
  import opened Lists
  import opened Platform
  import opened Hex
  import opened Tokens

  /** The string fields of the sample, wherever in it they stand. The counter epoch of a cgroup is
      required only beside a cumulative counter. */
  datatype TextField =
    | SampleId
    | BootId
    | Deployment
    | ResourceScope
    | DataFilesystemScope
    | OS
    | Arch
    | DistributionId
    | VersionId
    | KernelRelease
    | UnavailableToken
    | SystemCPUEpoch
    | CgroupCPUEpoch(cumulative: bool)
    | CgroupMemoryEpoch
    | NetworkEpoch
    | DefaultInterface
    | InterfaceName
    | InterfaceState
    | TCPEpoch
    | ProcessEpoch
    | CongestionControl
    | DefaultCongestionControl
    | DefaultQdisc

  datatype HostText = HostText(field: TextField, text: string)

  /** A float64. */
  datatype Float = Finite(value: real) | Infinite(negative: bool) | NaN

  /** The texts and the load averages of a sample. All its integers, its flags, and which of its optional
      parts are present are one uninterpreted text, since integers come back as they were. */
  datatype HostObservation = HostObservation(texts: seq<HostText>, load: seq<Float>, figures: string)

  // ---- validateText, validateEnum and the shapes of tokens ----

  datatype TextRule =
    | FreeText(maxBytes: nat, required: bool)
    | Choice(allowed: set<string>)
    | TokenText(maxBytes: nat, required: bool)
    | HexText(length: nat)

  const DEPLOYMENTS := {"systemd", "docker", "manual", "unknown"}
  const RESOURCE_SCOPES := {"host", "container", "mixed", "unknown"}
  const FILESYSTEM_SCOPES := {"host_mount", "container_mount", "unknown"}
  const OPERATIONAL_STATES := {"", "up", "down", "dormant", "lowerlayerdown", "unknown", "notpresent", "testing"}

  function RuleOf(field: TextField): TextRule {
    match field
    case SampleId => HexText(SAMPLE_ID_BYTES)
    case BootId => FreeText(MAX_BOOT_ID_BYTES, false)
    case Deployment => Choice(DEPLOYMENTS)
    case ResourceScope => Choice(RESOURCE_SCOPES)
    case DataFilesystemScope => Choice(FILESYSTEM_SCOPES)
    case OS => FreeText(MAX_PLATFORM_FIELD_BYTES, true)
    case Arch => FreeText(MAX_PLATFORM_FIELD_BYTES, true)
    case DistributionId => FreeText(MAX_PLATFORM_FIELD_BYTES, false)
    case VersionId => FreeText(MAX_KERNEL_RELEASE_BYTES, false)
    case KernelRelease => FreeText(MAX_KERNEL_RELEASE_BYTES, false)
    case UnavailableToken => TokenText(MAX_UNAVAILABLE_TOKEN_BYTES, true)
    case SystemCPUEpoch => FreeText(MAX_COUNTER_EPOCH_BYTES, true)
    case CgroupCPUEpoch(cumulative) => FreeText(MAX_COUNTER_EPOCH_BYTES, cumulative)
    case CgroupMemoryEpoch => FreeText(MAX_COUNTER_EPOCH_BYTES, true)
    case NetworkEpoch => FreeText(MAX_COUNTER_EPOCH_BYTES, true)
    case DefaultInterface => FreeText(MAX_INTERFACE_NAME_BYTES, false)
    case InterfaceName => FreeText(MAX_INTERFACE_NAME_BYTES, true)
    case InterfaceState => Choice(OPERATIONAL_STATES)
    case TCPEpoch => FreeText(MAX_COUNTER_EPOCH_BYTES, true)
    case ProcessEpoch => FreeText(MAX_COUNTER_EPOCH_BYTES, true)
    case CongestionControl => TokenText(MAX_CONGESTION_CONTROL_BYTES, true)
    case DefaultCongestionControl => TokenText(MAX_CONGESTION_CONTROL_BYTES, false)
    case DefaultQdisc => TokenText(MAX_CONGESTION_CONTROL_BYTES, false)
  }

  predicate Obeys(lib: Library, rule: TextRule, s: string) {
    match rule
    case FreeText(maxBytes, required) => if s == "" then !required else |s| <= maxBytes && lib.validUtf8(s)
    case Choice(allowed) => s in allowed
    case TokenText(maxBytes, required) => if s == "" then !required else |s| <= maxBytes && IsToken(s)
    case HexText(length) => |s| == length && LowerHex(s)
  }

  predicate ValidHostText(lib: Library, t: HostText) {
    Obeys(lib, RuleOf(t.field), t.text)
  }

  /** Interfaces go by their names, and an unavailable part is named once. */
  predicate NamesOneThing(field: TextField) {
    field == InterfaceName || field == UnavailableToken
  }

  predicate NamesAreDistinct(texts: seq<HostText>) {
    forall i, j :: 0 <= i < j < |texts| && texts[i] == texts[j] ==> !NamesOneThing(texts[i].field)
  }

  /** validMetricFloat. */
  predicate ValidFloat(x: Float) {
    x.Finite? && x.value >= 0.0
  }

  /** ValidateHostObservation, given its verdict on the integers and on what is present. */
  predicate ValidHost(lib: Library, validFigures: string -> bool, h: HostObservation) {
    && (forall t :: t in h.texts ==> ValidHostText(lib, t))
    && NamesAreDistinct(h.texts)
    && (forall x :: x in h.load ==> ValidFloat(x))
    && validFigures(h.figures)
  }

  // ---- what encoding/json makes of a sample ----

  /** It fails on a float that is no number. */
  predicate Encodable(h: HostObservation) {
    forall x :: x in h.load ==> x.Finite?
  }

  function CleanHostText(lib: Library): HostText -> HostText {
    (t: HostText) => HostText(t.field, lib.cleanUtf8(t.text))
  }

  function CleanHost(lib: Library, h: HostObservation): HostObservation {
    h.(texts := Map(CleanHostText(lib), h.texts))
  }

  predicate TextArrives(lib: Library, rule: TextRule, s: string) {
    match rule
    case FreeText(maxBytes, required) => if s == "" then !required else |lib.cleanUtf8(s)| <= maxBytes
    case _ => Obeys(lib, rule, s)
  }

  /** A check of the sample before it is sent: the validator's, but that a free text need not be valid
      UTF-8 as long as it fits once its invalid bytes are replaced, and names must stay distinct then. */
  predicate ArrivesValid(lib: Library, validFigures: string -> bool, h: HostObservation) {
    && (forall t :: t in h.texts ==> TextArrives(lib, RuleOf(t.field), t.text))
    && NamesAreDistinct(Map(CleanHostText(lib), h.texts))
    && (forall x :: x in h.load ==> ValidFloat(x))
    && validFigures(h.figures)
  }

  predicate Utf8Host(lib: Library, h: HostObservation) {
    forall t :: t in h.texts ==> lib.validUtf8(t.text)
  }

  // ---- the arrival, text by text ----

  lemma LowerHexIsAscii(s: string)
    requires LowerHex(s)
    ensures Ascii(s)
  {
    forall c | c in s
      ensures c as int < 128
    {
      var i :| 0 <= i < |s| && s[i] == c;
      assert LowerHexDigit(s[i]);
    }
  }

  lemma ChoicesAreAscii(field: TextField, s: string)
    requires RuleOf(field).Choice? && s in RuleOf(field).allowed
    ensures Ascii(s)
  {}

  /** Only free texts can hold anything but ASCII. */
  lemma StrictTextsAreAscii(lib: Library, field: TextField, s: string)
    requires !RuleOf(field).FreeText? && Obeys(lib, RuleOf(field), s)
    ensures Ascii(s)
  {
    match RuleOf(field)
    case Choice(_) => ChoicesAreAscii(field, s);
    case TokenText(_, _) =>
      if s != "" {
        TokensArePlain(s);
      }
    case HexText(_) => LowerHexIsAscii(s);
  }

  lemma TextArrivesExactly(lib: Library, t: HostText)
    requires LawfulText(lib)
    ensures ValidHostText(lib, CleanHostText(lib)(t)) <==> TextArrives(lib, RuleOf(t.field), t.text)
    ensures ValidHostText(lib, t) <==> TextArrives(lib, RuleOf(t.field), t.text) && lib.validUtf8(t.text)
  {
    var field, s := t.field, t.text;
    assert Ascii("");
    if !RuleOf(field).FreeText? {
      if Obeys(lib, RuleOf(field), lib.cleanUtf8(s)) {
        StrictTextsAreAscii(lib, field, lib.cleanUtf8(s));
      }
      if Obeys(lib, RuleOf(field), s) {
        StrictTextsAreAscii(lib, field, s);
      }
    }
  }

  // ---- the arrival of a sample ----

  lemma Utf8HostIsClean(lib: Library, h: HostObservation)
    requires LawfulText(lib) && Utf8Host(lib, h)
    ensures CleanHost(lib, h) == h
  {
    MapFixes(CleanHostText(lib), h.texts);
  }

  lemma CleanHostIsUtf8(lib: Library, h: HostObservation)
    requires LawfulText(lib)
    ensures Utf8Host(lib, CleanHost(lib, h))
    ensures CleanHost(lib, CleanHost(lib, h)) == CleanHost(lib, h)
  {
    MapMembers(CleanHostText(lib), h.texts);
    forall t | t in CleanHost(lib, h).texts
      ensures lib.validUtf8(t.text)
    {
      var was :| was in h.texts && CleanHostText(lib)(was) == t;
      assert lib.validUtf8(lib.cleanUtf8(was.text));
    }
    Utf8HostIsClean(lib, CleanHost(lib, h));
  }

  /** The sample that arrives is valid exactly when the check before sending says so. */
  lemma ArrivesValidIsExact(lib: Library, validFigures: string -> bool, h: HostObservation)
    requires LawfulText(lib)
    ensures ValidHost(lib, validFigures, CleanHost(lib, h)) <==> ArrivesValid(lib, validFigures, h)
  {
    MapMembers(CleanHostText(lib), h.texts);
    forall t | t in h.texts
      ensures ValidHostText(lib, CleanHostText(lib)(t)) <==> TextArrives(lib, RuleOf(t.field), t.text)
    {
      TextArrivesExactly(lib, t);
    }
  }

  /** And it was valid before exactly when, besides, all its texts were valid UTF-8. */
  lemma ValidMeansArrivesAndUtf8(lib: Library, validFigures: string -> bool, h: HostObservation)
    requires LawfulText(lib)
    ensures ValidHost(lib, validFigures, h) <==> ArrivesValid(lib, validFigures, h) && Utf8Host(lib, h)
  {
    forall t | t in h.texts
      ensures ValidHostText(lib, t) <==> TextArrives(lib, RuleOf(t.field), t.text) && lib.validUtf8(t.text)
    {
      TextArrivesExactly(lib, t);
    }
    if Utf8Host(lib, h) {
      Utf8HostIsClean(lib, h);
    }
  }

  /** A valid sample is encoded, and comes back as it was. */
  lemma ValidHostsComeBack(lib: Library, validFigures: string -> bool, h: HostObservation)
    requires LawfulText(lib) && ValidHost(lib, validFigures, h)
    ensures Encodable(h) && CleanHost(lib, h) == h
  {
    ValidMeansArrivesAndUtf8(lib, validFigures, h);
    Utf8HostIsClean(lib, h);
  }

  // ---- the samples a collector can take ----

  /** A text of so many bytes, all of them UTF-8. */
  predicate Fits(lib: Library, s: string, least: nat, most: nat) {
    least <= |s| <= most && lib.validUtf8(s)
  }

  predicate Named(s: string, most: nat) {
    |s| <= most && Spells(LETTERS, LETTERS + DIGITS + "_-.", s)
  }

  /** What a collector may put into each field. */
  predicate Measured(lib: Library, field: TextField, s: string) {
    match field
    case SampleId => |s| == 32 && forall i :: 0 <= i < 32 ==> '0' <= s[i] <= '9' || 'a' <= s[i] <= 'f'
    case Deployment => s == "systemd" || s == "docker" || s == "manual" || s == "unknown"
    case ResourceScope => s == "host" || s == "container" || s == "mixed" || s == "unknown"
    case DataFilesystemScope => s == "host_mount" || s == "container_mount" || s == "unknown"
    case InterfaceState =>
      || s == "" || s == "up" || s == "down" || s == "dormant" || s == "lowerlayerdown"
      || s == "unknown" || s == "notpresent" || s == "testing"
    case OS => Fits(lib, s, 1, 32)
    case Arch => Fits(lib, s, 1, 32)
    case DistributionId => Fits(lib, s, 0, 32)
    case VersionId => Fits(lib, s, 0, 128)
    case KernelRelease => Fits(lib, s, 0, 128)
    case BootId => Fits(lib, s, 0, 64)
    case InterfaceName => Fits(lib, s, 1, 64)
    case DefaultInterface => Fits(lib, s, 0, 64)
    case SystemCPUEpoch => Fits(lib, s, 1, 128)
    case CgroupMemoryEpoch => Fits(lib, s, 1, 128)
    case NetworkEpoch => Fits(lib, s, 1, 128)
    case TCPEpoch => Fits(lib, s, 1, 128)
    case ProcessEpoch => Fits(lib, s, 1, 128)
    case CgroupCPUEpoch(cumulative) => Fits(lib, s, if cumulative then 1 else 0, 128)
    case UnavailableToken => Named(s, 64)
    case CongestionControl => Named(s, 32)
    case DefaultCongestionControl => s == "" || Named(s, 32)
    case DefaultQdisc => s == "" || Named(s, 32)
  }

  lemma ValidChoicesAreMeasured(lib: Library, t: HostText)
    requires RuleOf(t.field).Choice?
    ensures ValidHostText(lib, t) <==> Measured(lib, t.field, t.text)
  {}

  lemma ValidFreeTextsAreMeasured(lib: Library, t: HostText)
    requires AsciiIsUtf8(lib) && RuleOf(t.field).FreeText?
    ensures ValidHostText(lib, t) <==> Measured(lib, t.field, t.text)
  {
    assert Ascii("");
  }

  lemma ValidNamesAreMeasured(lib: Library, t: HostText)
    requires RuleOf(t.field).TokenText? || RuleOf(t.field).HexText?
    ensures ValidHostText(lib, t) <==> Measured(lib, t.field, t.text)
  {
    if t.field == SampleId {
      assert forall i :: 0 <= i < |t.text| ==>
          (LowerHexDigit(t.text[i]) <==> '0' <= t.text[i] <= '9' || 'a' <= t.text[i] <= 'f');
    } else {
      TokensAreSpelled(t.text);
    }
  }

  /** The validator of each field takes what a collector may put there. */
  lemma ValidTextsAreMeasured(lib: Library, t: HostText)
    requires AsciiIsUtf8(lib)
    ensures ValidHostText(lib, t) <==> Measured(lib, t.field, t.text)
  {
    match RuleOf(t.field)
    case Choice(_) => ValidChoicesAreMeasured(lib, t);
    case FreeText(_, _) => ValidFreeTextsAreMeasured(lib, t);
    case _ => ValidNamesAreMeasured(lib, t);
  }

  predicate AllMeasured(lib: Library, texts: seq<HostText>) {
    forall t :: t in texts ==> Measured(lib, t.field, t.text)
  }

  /** No two texts of this field are the same. */
  predicate NoneTwice(field: TextField, texts: seq<HostText>) {
    forall i, j :: 0 <= i < j < |texts| && texts[i].field == texts[j].field == field ==> texts[i].text != texts[j].text
  }

  lemma AllValidAreMeasured(lib: Library, texts: seq<HostText>)
    requires AsciiIsUtf8(lib)
    ensures (forall t :: t in texts ==> ValidHostText(lib, t)) <==> AllMeasured(lib, texts)
  {
    forall t | t in texts
      ensures ValidHostText(lib, t) <==> Measured(lib, t.field, t.text)
    {
      ValidTextsAreMeasured(lib, t);
    }
  }

  /** The valid samples are those of measured texts, in which no two interfaces share a name and nothing is
      twice unavailable, and of loads that are numbers and not negative. */
  lemma ValidSamplesAreMeasured(lib: Library, validFigures: string -> bool, h: HostObservation)
    requires AsciiIsUtf8(lib)
    ensures ValidHost(lib, validFigures, h) <==>
            && AllMeasured(lib, h.texts)
            && NoneTwice(InterfaceName, h.texts) && NoneTwice(UnavailableToken, h.texts)
            && (forall x :: x in h.load ==> x.Finite? && 0.0 <= x.value)
            && validFigures(h.figures)
  {
    AllValidAreMeasured(lib, h.texts);
  }
}
