/** The object enumeration of a full report, and the runs of the objects it enumerates. */
module ObjectReports {
  import opened Wrappers
  import opened Ints
  import opened Lists
  import opened Platform
  import opened Versions
  import opened Keys
  import opened ObjectState
  import opened ObjectRuns
  import opened Report

  /** The wire accepts an enumeration of objects exactly when it names each object once and each is the
      end of a run of the transition function. */
  lemma AcceptedObjectsAreRuns(lib: Library, objects: seq<ObjectStatus>)
    requires AsciiIsUtf8(lib)
    ensures AcceptedObjects(lib, objects) <==>
            Distinct(ObjectIdentity, objects) && forall o :: o in objects ==> Reachable(lib, o)
  {
    forall o | o in objects
      ensures ValidateReportedObject(lib, o) <==> Reachable(lib, o)
    {
      ValidatorAcceptsExactlyTheReachable(lib, o);
    }
  }

  lemma ReplaceObject(lib: Library, objects: seq<ObjectStatus>, i: nat, next: ObjectStatus)
    requires AcceptedObjects(lib, objects) && i < |objects| && ObjectIdentity(next) == ObjectIdentity(objects[i])
    ensures AcceptedObjects(lib, objects[i := next]) <==> ValidateReportedObject(lib, next)
  {
    var valid := (o: ObjectStatus) => ValidateReportedObject(lib, o);
    Replaced(ObjectIdentity, valid, objects, i, next);
  }

  lemma AdvanceKeepsIdentity(s: ObjectStatus, tr: Transition)
    ensures ObjectIdentity(Advance(s, tr)) == ObjectIdentity(s)
  {}

  /** And it goes on accepting it as the objects advance, exactly so long as each step's evidence is sound. */
  lemma StepsKeepTheEnumerationAccepted(lib: Library, objects: seq<ObjectStatus>, i: nat, tr: Transition)
    requires AsciiIsUtf8(lib) && AcceptedObjects(lib, objects) && i < |objects|
    ensures AcceptedObjects(lib, objects[i := Advance(objects[i], tr)]) <==> SafeStep(lib, objects[i], tr)
  {
    assert objects[i] in objects;
    AdvanceKeepsIdentity(objects[i], tr);
    StepStaysValid(lib, objects[i], tr);
    ReplaceObject(lib, objects, i, Advance(objects[i], tr));
  }

  // ---- what the objects are ----

  function AppliedAt(stream: string, key: string, v: Version): ObjectStatus {
    ObjectStatus(stream, key, ObjectApplied, v, 0, "", "")
  }

  /** The row that an identity names: a listener under config, a client under roster, and nothing else. */
  predicate NamesRow(stream: string, key: string, id: int64) {
    && id > 0
    && ((stream == "config" && key == "lst_" + Decimal(id)) || (stream == "roster" && key == "cli_" + Decimal(id)))
  }

  lemma CanonicalIdentitiesNameRows(stream: string, key: string, id: int64)
    ensures NamesRow(stream, key, id) <==>
            CanonicalIdentity(stream, key) && RowId(KeyKindOf(stream).value, key) == Some(id)
  {
    assert "config" != "roster";
    if id > 0 {
      MintedKeys(id);
    }
    RowIdIsMintInverse(ListenerKey, key, id);
    RowIdIsMintInverse(ClientKey, key, id);
  }

  /** Every listener under config and every client under roster can be reported as applied, at every committed
      version, and nothing else can. */
  lemma ReportableObjectsAreRows(lib: Library, stream: string, key: string, v: Version)
    requires AsciiIsUtf8(lib)
    ensures ValidateReportedObject(lib, AppliedAt(stream, key, v)) <==>
            v.Committed() && exists id: int64 :: NamesRow(stream, key, id)
  {
    ValidMeans(lib, AppliedAt(stream, key, v));
    assert Ascii("");
    if CanonicalIdentity(stream, key) {
      CanonicalIdentitiesNameRows(stream, key, RowId(KeyKindOf(stream).value, key).value);
    }
    if id: int64 :| NamesRow(stream, key, id) {
      CanonicalIdentitiesNameRows(stream, key, id);
    }
  }

  /** What an accepted object is blocked on is itself an object of the config stream. */
  lemma BlockersCanBeReported(lib: Library, s: ObjectStatus)
    requires AsciiIsUtf8(lib) && ValidateReportedObject(lib, s) && s.blockedOn != ""
    ensures ValidateReportedObject(lib, AppliedAt("config", s.blockedOn, s.sinceVersion))
  {
    ValidMeans(lib, s);
    ValidMeans(lib, AppliedAt("config", s.blockedOn, s.sinceVersion));
    assert Ascii("");
  }
}
