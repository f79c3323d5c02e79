/** The decoder that accepts an object with exactly the declared members, some of them optional. */
module ExactObject {
  import opened Wrappers
  import opened Lists

  /** A field of the struct to decode into: its Go name, and its json tag split at the first comma, if the
      tag has one, into a name and whether omitempty is among the rest. */
  datatype StructField = StructField(goName: string, exported: bool, name: string, comma: bool, omitEmpty: bool)

  /** What the decoder reads between the braces: a key, unless that token is an error or no string,
      and then a value, unless that cannot be read. */
  datatype Entry = Entry(key: Option<string>, readable: bool)

  /** A document as the token stream of encoding/json presents it. */
  datatype Document =
    | Unreadable
    | OtherValue
    | ObjectDocument(entries: seq<Entry>, closes: bool, trailing: bool, fitsTarget: bool)

  // ---- the algebra of accepted documents ----

  predicate Named(f: StructField) {
    f.name != "" && f.name != "-"
  }

  function Declared(target: seq<StructField>): set<string> {
    set i | 0 <= i < |target| && Named(target[i]) :: target[i].name
  }

  function SetOf(s: seq<string>): set<string> {
    set x | x in s
  }

  predicate ReadableEntry(e: Entry) {
    e.key.Some? && e.readable
  }

  function EntryKey(e: Entry): string {
    e.key.GetOr("")
  }

  /** Duplicate-free, no key that is not declared, and every declared key that is not optional. */
  predicate ExactKeys(declared: set<string>, optional: set<string>, entries: seq<Entry>) {
    && Distinct(EntryKey, entries)
    && KeySet(EntryKey, entries) <= declared
    && declared - optional <= KeySet(EntryKey, entries)
  }

  predicate ExactDocument(target: seq<StructField>, optional: seq<string>, doc: Document) {
    && doc.ObjectDocument?
    && doc.closes && !doc.trailing && doc.fitsTarget
    && (forall e :: e in doc.entries ==> ReadableEntry(e))
    && ExactKeys(Declared(target), SetOf(optional), doc.entries)
  }

  // ---- the decoder ----

  /** The loop over the members. */
  method ReadEntries(allowed: set<string>, entries: seq<Entry>) returns (seen: set<string>, ok: bool)
    ensures ok <==>
            && (forall e :: e in entries ==> ReadableEntry(e))
            && Distinct(EntryKey, entries)
            && KeySet(EntryKey, entries) <= allowed
    ensures ok ==> seen == KeySet(EntryKey, entries)
  {
    seen := {};
    for n := 0 to |entries|
      invariant UpTo(ReadableEntry, entries, n)
      invariant seen == KeySet(EntryKey, entries[..n])
      invariant Distinct(EntryKey, entries[..n])
      invariant seen <= allowed
    {
      var entry := entries[n];
      assert entry in entries;
      ExtendKeys(EntryKey, entries, n);
      DistinctPrefix(EntryKey, entries, n + 1);
      KeySetMeans(EntryKey, entries, EntryKey(entry));
      if entry.key.None? {
        return seen, false;
      }
      if entry.key.value !in allowed {
        return seen, false;
      }
      if entry.key.value in seen {
        return seen, false;
      }
      seen := seen + {entry.key.value};
      if !entry.readable {
        return seen, false;
      }
    }
    assert entries[..|entries|] == entries;
    UpToMeans(ReadableEntry, entries, |entries|);
    ok := true;
  }

  lemma DeclaredGrows(target: seq<StructField>, i: nat)
    requires i < |target|
    ensures Declared(target[..i + 1]) == Declared(target[..i]) + (if Named(target[i]) then {target[i].name} else {})
  {
    var p, q := target[..i], target[..i + 1];
    forall x | x in Declared(p)
      ensures x in Declared(q)
    {
      var k :| 0 <= k < |p| && Named(p[k]) && p[k].name == x;
      assert q[k] == p[k];
    }
    if Named(target[i]) {
      assert q[i] == target[i];
    }
  }

  method DeclaredFields(target: seq<StructField>) returns (fields: seq<string>, allowed: set<string>)
    ensures allowed == Declared(target)
    ensures forall x :: x in fields <==> x in allowed
  {
    fields, allowed := [], {};
    for i := 0 to |target|
      invariant allowed == Declared(target[..i])
      invariant forall x :: x in fields <==> x in allowed
    {
      var field := target[i].name;
      DeclaredGrows(target, i);
      if field == "" || field == "-" {
        continue;
      }
      fields := fields + [field];
      allowed := allowed + {field};
    }
    assert target[..|target|] == target;
  }

  method DecodeExactObjectMayOmit(target: seq<StructField>, optional: seq<string>, doc: Document) returns (ok: bool)
    ensures ok <==> ExactDocument(target, optional, doc)
  {
    var mayOmit := {};
    for i := 0 to |optional|
      invariant mayOmit == set x | x in optional[..i]
    {
      mayOmit := mayOmit + {optional[i]};
      assert optional[..i + 1] == optional[..i] + [optional[i]];
    }
    assert optional[..|optional|] == optional;
    var fields, allowed := DeclaredFields(target);
    if doc.Unreadable? {
      return false;
    }
    if doc.OtherValue? {
      return false;
    }
    var seen;
    seen, ok := ReadEntries(allowed, doc.entries);
    if !ok {
      return;
    }
    if !doc.closes {
      return false;
    }
    if doc.trailing {
      return false;
    }
    for n := 0 to |fields|
      invariant forall i :: 0 <= i < n ==> fields[i] in seen || fields[i] in mayOmit
    {
      if fields[n] in seen {
        continue;
      }
      if fields[n] in mayOmit {
        continue;
      }
      assert fields[n] in fields;
      return false;
    }
    ok := doc.fitsTarget;
  }

  lemma RepeatedKeysAreRefused(entries: seq<Entry>, e: Entry)
    requires e in entries
    ensures !Distinct(EntryKey, entries + [e])
  {
    var longer := entries + [e];
    assert longer[..|longer| - 1] == entries;
    var i :| 0 <= i < |entries| && entries[i] == e;
    KeySetMeans(EntryKey, entries, EntryKey(e));
    assert EntryKey(entries[i]) == EntryKey(e);
  }

  lemma LastKeyIsThere(entries: seq<Entry>, e: Entry)
    ensures EntryKey(e) in KeySet(EntryKey, entries + [e])
  {
    var longer := entries + [e];
    assert longer[..|longer| - 1] == entries;
  }

  /** An accepted document is whole: with any one defect added to it, it is refused. */
  lemma AnyDefectIsRefused(target: seq<StructField>, optional: seq<string>, doc: Document, e: Entry)
    requires ExactDocument(target, optional, doc)
    ensures !ExactDocument(target, optional, doc.(closes := false))
    ensures !ExactDocument(target, optional, doc.(trailing := true))
    ensures !ExactDocument(target, optional, doc.(fitsTarget := false))
    ensures e.key.None? || !e.readable || e in doc.entries || e.key.value !in Declared(target) ==>
              !ExactDocument(target, optional, doc.(entries := doc.entries + [e]))
  {
    assert e in doc.entries + [e];
    LastKeyIsThere(doc.entries, e);
    if e in doc.entries {
      RepeatedKeysAreRefused(doc.entries, e);
    }
  }

  /** Members may come in any order. */
  lemma MemberOrderDoesNotMatter(target: seq<StructField>, optional: seq<string>, doc: Document, entries: seq<Entry>)
    requires doc.ObjectDocument? && multiset(entries) == multiset(doc.entries)
    requires ExactDocument(target, optional, doc)
    ensures ExactDocument(target, optional, doc.(entries := entries))
  {
    SameMembers(entries, doc.entries);
    DistinctPermuted(EntryKey, doc.entries, entries);
    forall k
      ensures k in KeySet(EntryKey, entries) <==> k in KeySet(EntryKey, doc.entries)
    {
      KeySetMeans(EntryKey, entries, k);
      KeySetMeans(EntryKey, doc.entries, k);
      if i :| 0 <= i < |entries| && EntryKey(entries[i]) == k {
        assert entries[i] in doc.entries;
      }
      if i :| 0 <= i < |doc.entries| && EntryKey(doc.entries[i]) == k {
        assert doc.entries[i] in entries;
      }
    }
  }

  // ---- what the encoder of the same struct emits ----

  const TAG_PUNCTUATION := "!#$%&()*+-./:;<=>?@[]^_{|}~ "

  predicate TagChar(c: char) {
    'a' <= c <= 'z' || 'A' <= c <= 'Z' || '0' <= c <= '9' || c in TAG_PUNCTUATION
  }

  /** The tag names that encoding/json goes by. */
  predicate ValidTagName(name: string) {
    name != "" && forall i :: 0 <= i < |name| ==> TagChar(name[i])
  }

  /** The name encoding/json knows a field by: the tag's if it has a valid one, else the field's own. A
      field that is not exported, or whose whole tag is "-", has none. */
  function WireName(f: StructField): Option<string> {
    if !f.exported || (f.name == "-" && !f.comma) then None
    else if ValidTagName(f.name) then Some(f.name)
    else Some(f.goName)
  }

  /** Of several fields of one name, encoding/json takes the one that has it from its tag, if that is one. */
  predicate Yields(target: seq<StructField>, i: nat, j: nat)
    requires i < |target| && j < |target|
  {
    i != j && WireName(target[i]) == WireName(target[j]) &&
    (ValidTagName(target[j].name) || !ValidTagName(target[i].name))
  }

  predicate Dominant(target: seq<StructField>, i: nat)
    requires i < |target|
  {
    WireName(target[i]).Some? && forall j :: 0 <= j < |target| ==> !Yields(target, i, j)
  }

  /** `empty` names the fields that hold an empty value. */
  predicate Written(target: seq<StructField>, empty: set<string>, i: nat)
    requires i < |target|
  {
    Dominant(target, i) && !(target[i].omitEmpty && WireName(target[i]).value in empty)
  }

  function EntryOf(key: string): Entry {
    Entry(Some(key), true)
  }

  /** The members encoding/json writes for the first `n` fields. */
  function Emitted(target: seq<StructField>, empty: set<string>, n: nat): seq<Entry>
    requires n <= |target|
  {
    if n == 0 then []
    else
      Emitted(target, empty, n - 1)
      + (if Written(target, empty, n - 1) then [EntryOf(WireName(target[n - 1]).value)] else [])
  }

  function OwnDocument(target: seq<StructField>, empty: set<string>): Document {
    ObjectDocument(Emitted(target, empty, |target|), true, false, true)
  }

  /** Field i puts `name` into the document. */
  predicate Writes(target: seq<StructField>, empty: set<string>, i: nat, name: string)
    requires i < |target|
  {
    Written(target, empty, i) && WireName(target[i]).value == name
  }

  lemma EmittedStep(target: seq<StructField>, empty: set<string>, n: nat)
    requires 0 < n <= |target|
    ensures var before, after := Emitted(target, empty, n - 1), Emitted(target, empty, n);
            if Written(target, empty, n - 1) then
              var name := WireName(target[n - 1]).value;
              && KeySet(EntryKey, after) == KeySet(EntryKey, before) + {name}
              && (Distinct(EntryKey, after) <==> Distinct(EntryKey, before) && name !in KeySet(EntryKey, before))
              && after == before + [EntryOf(name)]
            else
              after == before
  {
    var before, after := Emitted(target, empty, n - 1), Emitted(target, empty, n);
    if Written(target, empty, n - 1) {
      assert after[..|after| - 1] == before;
    }
  }

  lemma {:induction false} EmittedKey(target: seq<StructField>, empty: set<string>, n: nat, k: string)
    requires n <= |target|
    ensures k in KeySet(EntryKey, Emitted(target, empty, n)) <==> exists i :: 0 <= i < n && Writes(target, empty, i, k)
  {
    if n > 0 {
      EmittedKey(target, empty, n - 1, k);
      EmittedStep(target, empty, n);
      if Writes(target, empty, n - 1, k) {
        assert k in KeySet(EntryKey, Emitted(target, empty, n));
      }
    }
  }

  lemma DominantsDiffer(target: seq<StructField>, i: nat, j: nat)
    requires i < |target| && j < |target| && i != j
    requires Dominant(target, i) && Dominant(target, j)
    ensures WireName(target[i]) != WireName(target[j])
  {
    assert !Yields(target, i, j) && !Yields(target, j, i);
  }

  lemma {:induction false} EmittedOnce(target: seq<StructField>, empty: set<string>, n: nat)
    requires n <= |target|
    ensures Distinct(EntryKey, Emitted(target, empty, n))
    ensures forall e :: e in Emitted(target, empty, n) ==> ReadableEntry(e)
  {
    if n > 0 {
      EmittedOnce(target, empty, n - 1);
      EmittedStep(target, empty, n);
      if Written(target, empty, n - 1) {
        var name := WireName(target[n - 1]).value;
        EmittedKey(target, empty, n - 1, name);
        if i :| 0 <= i < n - 1 && Writes(target, empty, i, name) {
          DominantsDiffer(target, i, n - 1);
        }
      }
    }
  }

  /** A field is written under this name whatever it holds. */
  predicate AlwaysWrites(target: seq<StructField>, i: nat, name: string)
    requires i < |target|
  {
    Dominant(target, i) && !target[i].omitEmpty && WireName(target[i]).value == name
  }

  /** A check of the struct alone: what it can write is declared by a tag, and what is declared is either
      optional or always written. */
  predicate NamesMatch(target: seq<StructField>, optional: seq<string>) {
    && (forall i :: 0 <= i < |target| && Dominant(target, i) ==> WireName(target[i]).value in Declared(target))
    && (forall name :: name in Declared(target) && name !in optional ==>
          exists i :: 0 <= i < |target| && AlwaysWrites(target, i, name))
  }

  lemma MatchingNamesAreAccepted(target: seq<StructField>, optional: seq<string>, empty: set<string>)
    requires NamesMatch(target, optional)
    ensures ExactDocument(target, optional, OwnDocument(target, empty))
  {
    EmittedOnce(target, empty, |target|);
    var keys := KeySet(EntryKey, Emitted(target, empty, |target|));
    forall k | k in keys
      ensures k in Declared(target)
    {
      EmittedKey(target, empty, |target|, k);
      var i :| 0 <= i < |target| && Writes(target, empty, i, k);
      assert Dominant(target, i);
    }
    forall k | k in Declared(target) && k !in SetOf(optional)
      ensures k in keys
    {
      EmittedKey(target, empty, |target|, k);
      var i :| 0 <= i < |target| && AlwaysWrites(target, i, k);
      assert Writes(target, empty, i, k);
    }
  }

  function WireNames(target: seq<StructField>): set<string> {
    set i | 0 <= i < |target| && WireName(target[i]).Some? :: WireName(target[i]).value
  }

  lemma AcceptedNamesMatch(target: seq<StructField>, optional: seq<string>)
    requires ExactDocument(target, optional, OwnDocument(target, {}))
    requires ExactDocument(target, optional, OwnDocument(target, WireNames(target)))
    ensures NamesMatch(target, optional)
  {
    forall i | 0 <= i < |target| && Dominant(target, i)
      ensures WireName(target[i]).value in Declared(target)
    {
      EmittedKey(target, {}, |target|, WireName(target[i]).value);
      assert Writes(target, {}, i, WireName(target[i]).value);
    }
    var all := WireNames(target);
    forall name | name in Declared(target) && name !in optional
      ensures exists i :: 0 <= i < |target| && AlwaysWrites(target, i, name)
    {
      EmittedKey(target, all, |target|, name);
      assert name !in SetOf(optional);
      var i :| 0 <= i < |target| && Writes(target, all, i, name);
      assert WireName(target[i]).value in all;
      assert AlwaysWrites(target, i, name);
    }
  }

  /** The struct's own encoding passes its own exact decoder, whatever the fields hold. */
  ghost predicate AlwaysAccepted(target: seq<StructField>, optional: seq<string>) {
    forall empty :: ExactDocument(target, optional, OwnDocument(target, empty))
  }

  /** Exactly when a struct is always accepted by its own exact decoder. */
  lemma OwnEncodingIsAccepted(target: seq<StructField>, optional: seq<string>)
    ensures AlwaysAccepted(target, optional) <==> NamesMatch(target, optional)
  {
    if AlwaysAccepted(target, optional) {
      AcceptedNamesMatch(target, optional);
    }
    if NamesMatch(target, optional) {
      forall empty
        ensures ExactDocument(target, optional, OwnDocument(target, empty))
      {
        MatchingNamesAreAccepted(target, optional, empty);
      }
    }
  }

  // ---- structs whose fields are all tagged ----

  predicate Tagged(f: StructField) {
    f.exported && Named(f) && ValidTagName(f.name)
  }

  function FieldName(f: StructField): string {
    f.name
  }

  lemma TaggedFieldsAreDominant(target: seq<StructField>)
    requires forall i :: 0 <= i < |target| ==> Tagged(target[i])
    requires Distinct(FieldName, target)
    ensures forall i :: 0 <= i < |target| ==> Dominant(target, i) && WireName(target[i]) == Some(target[i].name)
  {
    DistinctMeans(FieldName, target);
    forall i, j | 0 <= i < |target| && 0 <= j < |target|
      ensures !Yields(target, i, j)
    {
      assert i < j ==> FieldName(target[i]) != FieldName(target[j]);
      assert j < i ==> FieldName(target[j]) != FieldName(target[i]);
    }
  }

  predicate EmptyIsOptional(target: seq<StructField>, optional: seq<string>) {
    forall i :: 0 <= i < |target| && target[i].omitEmpty ==> target[i].name in optional
  }

  lemma OptionalFieldsMatch(target: seq<StructField>, optional: seq<string>)
    requires forall i :: 0 <= i < |target| ==> Tagged(target[i])
    requires Distinct(FieldName, target) && EmptyIsOptional(target, optional)
    ensures NamesMatch(target, optional)
  {
    TaggedFieldsAreDominant(target);
    forall name | name in Declared(target) && name !in optional
      ensures exists i :: 0 <= i < |target| && AlwaysWrites(target, i, name)
    {
      var i :| 0 <= i < |target| && Named(target[i]) && target[i].name == name;
      assert AlwaysWrites(target, i, name);
    }
  }

  lemma MatchingFieldsAreOptional(target: seq<StructField>, optional: seq<string>)
    requires forall i :: 0 <= i < |target| ==> Tagged(target[i])
    requires Distinct(FieldName, target) && NamesMatch(target, optional)
    ensures EmptyIsOptional(target, optional)
  {
    TaggedFieldsAreDominant(target);
    DistinctMeans(FieldName, target);
    forall i | 0 <= i < |target| && target[i].omitEmpty
      ensures target[i].name in optional
    {
      assert target[i].name in Declared(target);
      assert forall j :: 0 <= j < |target| && FieldName(target[j]) == FieldName(target[i]) ==> j == i;
    }
  }

  /** A struct whose fields all have tags of their own is always accepted by its own exact decoder exactly
      when all its omitempty fields are optional. */
  lemma TaggedStructsAreAccepted(target: seq<StructField>, optional: seq<string>)
    requires forall i :: 0 <= i < |target| ==> Tagged(target[i])
    requires Distinct(FieldName, target)
    ensures AlwaysAccepted(target, optional) <==> EmptyIsOptional(target, optional)
  {
    OwnEncodingIsAccepted(target, optional);
    if EmptyIsOptional(target, optional) {
      OptionalFieldsMatch(target, optional);
    }
    if NamesMatch(target, optional) {
      MatchingFieldsAreOptional(target, optional);
    }
  }

  /** An exported field without a json tag is written under its own name, which the decoder refuses. */
  lemma UntaggedFieldsAreRefused(goName: string, optional: seq<string>, empty: set<string>)
    ensures var target := [StructField(goName, true, "", false, false)];
            !ExactDocument(target, optional, OwnDocument(target, empty))
  {
    var target := [StructField(goName, true, "", false, false)];
    assert Dominant(target, 0);
    EmittedKey(target, empty, 1, goName);
    assert Writes(target, empty, 0, goName);
  }

  lemma DashIsAName()
    ensures ValidTagName("-")
  {
    assert TAG_PUNCTUATION[9] == '-';
  }

  /** The tag "-" hides a field from both; with a comma after it, encoding/json writes "-", which the decoder
      refuses. */
  lemma DashedFields(goName: string, optional: seq<string>, empty: set<string>)
    ensures var hidden := [StructField(goName, true, "-", false, false)];
            ExactDocument(hidden, optional, OwnDocument(hidden, empty))
    ensures var dashed := [StructField(goName, true, "-", true, false)];
            !ExactDocument(dashed, optional, OwnDocument(dashed, empty))
  {
    var hidden := [StructField(goName, true, "-", false, false)];
    var dashed := [StructField(goName, true, "-", true, false)];
    assert !Written(hidden, empty, 0);
    assert Emitted(hidden, empty, 1) == Emitted(hidden, empty, 0) == [];
    assert Declared(hidden) == {};
    DashIsAName();
    assert WireName(dashed[0]) == Some("-");
    assert Dominant(dashed, 0);
    EmittedKey(dashed, empty, 1, "-");
    assert Writes(dashed, empty, 0, "-");
  }

  /** Of two fields of one name, the tagged one is written; of two tagged ones, neither. */
  lemma ConflictingFields(plain: StructField, a: StructField, b: StructField)
    requires Tagged(a) && Tagged(b) && a.name == b.name
    requires plain.exported && plain.name == "" && plain.goName == a.name
    ensures !Dominant([plain, a], 0) && Dominant([plain, a], 1)
    ensures !Dominant([a, b], 0) && !Dominant([a, b], 1)
  {
    assert Yields([plain, a], 0, 1);
    assert Yields([a, b], 0, 1) && Yields([a, b], 1, 0);
  }
}
