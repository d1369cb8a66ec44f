/** The Salesforce routes' own logic over the session: the cached object list, the selected
    object, the phase of a capture and the per-session list of captures it upserts, the
    upgrade-state endpoints and the comparison endpoint. HTTP plumbing is left out; a route's
    JSON reply is its `Result`. */
module SalesforceRoutes {
  import opened Seqs
  import opened Text
  import opened Bytes
  import opened Results
  import opened Session
  import opened ObjectCatalog
  import opened Artifacts
  import opened Screenshot
  import opened Comparison

  datatype RouteError =
    | NotAuthenticated
    | FetchObjectsError(message: string)
    | MissingApiName
    | MissingRecordUrl
    | NoObjectSelected
    | CaptureFailed(cause: CaptureError)
    | InvalidUpgradeState
    | MissingObjectName
    | ComparisonFailed(reason: CompareError)

  const AccessTokenKey: string := "accessToken"
  const InstanceUrlKey: string := "instanceUrl"
  const SelectedObjectKey: string := "selectedObject"
  const UpgradeStateKey: string := "upgradeState"
  const CapturedRecordsKey: string := "capturedRecords"

  /** Both the access token and the instance URL are set. */
  predicate Authenticated(entries: map<string, Value>)
  {
    Truthy(Lookup(entries, AccessTokenKey)) && Truthy(Lookup(entries, InstanceUrlKey))
  }

  // ---------------------------------------------------------------------------------------------
  // GET /objects

  const DefaultNamespace: string := "leaseworks__"

  /** One hour, in milliseconds. */
  const CacheMaxAge: int := 60 * 60 * 1000

  /** `namespace = 'leaseworks__'` when the query parameter is absent. */
  function NamespaceOf(param: Option<string>): string
  {
    if param.Some? then param.value else DefaultNamespace
  }

  function CacheKey(namespace: string): (k: string)
    ensures StartsWith(k, "objects_")
  {
    "objects_" + namespace
  }

  function TimestampKey(namespace: string): (k: string)
    ensures StartsWith(k, "objects_")
  {
    assert ("objects_" + namespace + "_timestamp")[..8] == "objects_";
    CacheKey(namespace) + "_timestamp"
  }

  /** The cache entry and its timestamp are both set and the timestamp is less than an hour old. */
  predicate CacheFresh(entries: map<string, Value>, namespace: string, now: int)
  {
    var ts := Lookup(entries, TimestampKey(namespace));
    Truthy(Lookup(entries, CacheKey(namespace))) && Truthy(ts) && ts.value.Num? && now - ts.value.num < CacheMaxAge
  }

  datatype ObjectsReply =
    | CachedObjects(cache: Value)
    | FetchedObjects(objects: seq<ObjectInfo>)

  /** GET `/objects`. `describe` is the describe call: the `sobjects` property of the reply
      (absent is `None`), or the message of the error it threw. */
  method ListObjects(session: Session, namespaceParam: Option<string>, now: int,
                     describe: Result<Option<seq<SObjectDescribe>>, string>) returns (r: Result<ObjectsReply, RouteError>)
    modifies session
    ensures var ns := NamespaceOf(namespaceParam);
      && (!Authenticated(old(session.entries)) ==> r == Failure(NotAuthenticated))
      && (Authenticated(old(session.entries)) && CacheFresh(old(session.entries), ns, now) ==>
            r == Success(CachedObjects(old(session.entries)[CacheKey(ns)])))
      && (Authenticated(old(session.entries)) && !CacheFresh(old(session.entries), ns, now) && describe.Failure? ==>
            r == Failure(FetchObjectsError(describe.error)))
    ensures var ns := NamespaceOf(namespaceParam);
      if Authenticated(old(session.entries)) && !CacheFresh(old(session.entries), ns, now) && describe.Success? then
        var list := NamespaceObjects(if describe.value.Some? then describe.value.value else [], ns);
        && r == Success(FetchedObjects(list))
        && session.entries == old(session.entries)[CacheKey(ns) := Objects(list)][TimestampKey(ns) := Num(now)]
      else session.entries == old(session.entries)
  {
    if !Authenticated(session.entries) {
      return Failure(NotAuthenticated);
    }
    var ns := NamespaceOf(namespaceParam);
    if CacheFresh(session.entries, ns, now) {
      return Success(CachedObjects(session.entries[CacheKey(ns)]));
    }
    if describe.Failure? {
      return Failure(FetchObjectsError(describe.error));
    }
    var all := if describe.value.Some? then describe.value.value else [];
    var list := NamespaceObjects(all, ns);
    session.Set(CacheKey(ns), Objects(list));
    session.Set(TimestampKey(ns), Num(now));
    r := Success(FetchedObjects(list));
  }

  /** A freshly written cache is served for exactly an hour after it was written (a clock
      reading of 0 would be a falsy timestamp and is excluded). */
  lemma CacheServedForAnHour(entries: map<string, Value>, namespace: string, list: seq<ObjectInfo>, written: int, now: int)
    requires written != 0
    ensures var e := entries[CacheKey(namespace) := Objects(list)][TimestampKey(namespace) := Num(written)];
      CacheFresh(e, namespace, now) <==> now < written + 3600000
  {
    var e := entries[CacheKey(namespace) := Objects(list)][TimestampKey(namespace) := Num(written)];
    assert |TimestampKey(namespace)| != |CacheKey(namespace)|;
    assert e[CacheKey(namespace)] == Objects(list);
  }

  // ---------------------------------------------------------------------------------------------
  // POST /objects/select and GET /objects/selected

  /** POST `/objects/select`: store `{ apiName, label: label || apiName, selectedAt }`. */
  method SelectObject(session: Session, apiName: string, labelText: string, selectedAt: string)
      returns (r: Result<SelectedObject, RouteError>)
    modifies session
    ensures apiName == [] ==> r == Failure(MissingApiName) && session.entries == old(session.entries)
    ensures apiName != [] ==>
      && r == Success(SelectedObject(apiName, if labelText != [] then labelText else apiName, selectedAt))
      && session.entries == old(session.entries)[SelectedObjectKey := Selected(r.value)]
  {
    if apiName == [] {
      return Failure(MissingApiName);
    }
    var selection := SelectedObject(apiName, if labelText != [] then labelText else apiName, selectedAt);
    session.Set(SelectedObjectKey, Selected(selection));
    r := Success(selection);
  }

  /** GET `/objects/selected`: the stored value when truthy, else `null`. */
  function CurrentSelection(entries: map<string, Value>): (v: Option<Value>)
    ensures v.Some? <==> Truthy(Lookup(entries, SelectedObjectKey))
    ensures v.Some? ==> v.value == entries[SelectedObjectKey]
  {
    if Truthy(Lookup(entries, SelectedObjectKey)) then Some(entries[SelectedObjectKey]) else None
  }

  /** Selecting an object makes it the current selection, with the label defaulting to the name. */
  lemma SelectThenGet(entries: map<string, Value>, apiName: string, labelText: string, selectedAt: string)
    requires apiName != []
    ensures var s := SelectedObject(apiName, if labelText != [] then labelText else apiName, selectedAt);
      CurrentSelection(entries[SelectedObjectKey := Selected(s)]) == Some(Selected(s)) && s.labelText != []
  {
  }

  /** The selected object as the capture route reads it. */
  function SelectionOf(entries: map<string, Value>): (s: Option<SelectedObject>)
    ensures s.Some? ==> SelectedObjectKey in entries && entries[SelectedObjectKey] == Selected(s.value)
    ensures s.None? ==> SelectedObjectKey !in entries || !entries[SelectedObjectKey].Selected?
  {
    if SelectedObjectKey in entries && entries[SelectedObjectKey].Selected? then Some(entries[SelectedObjectKey].selection) else None
  }

  // ---------------------------------------------------------------------------------------------
  // The captured-records list

  /** `session.capturedRecords || []`. */
  function CapturedRecordsOf(entries: map<string, Value>): (rs: seq<CaptureRecord>)
    ensures CapturedRecordsKey in entries && entries[CapturedRecordsKey].Captures? ==> rs == entries[CapturedRecordsKey].records
    ensures CapturedRecordsKey !in entries ==> rs == []
  {
    if CapturedRecordsKey in entries && entries[CapturedRecordsKey].Captures? then entries[CapturedRecordsKey].records else []
  }

  /** A record has the upsert key (recordId, upgradeState). The object is not part of the key. */
  predicate HasKey(c: CaptureRecord, recordId: string, upgradeState: string)
  {
    c.recordId == recordId && c.upgradeState == upgradeState
  }

  /** The filter test `c => !(c.recordId === recordId && c.upgradeState === upgradeState)`. */
  function OtherKey(recordId: string, upgradeState: string): CaptureRecord -> bool
  {
    c => !HasKey(c, recordId, upgradeState)
  }

  /** Filter out the entries with the new entry's key, then append the new entry. */
  function Upsert(records: seq<CaptureRecord>, entry: CaptureRecord): (r: seq<CaptureRecord>)
    ensures |r| >= 1 && r[|r| - 1] == entry
    ensures forall i :: 0 <= i < |r| && HasKey(r[i], entry.recordId, entry.upgradeState) ==> i == |r| - 1
    ensures |r| <= |records| + 1
  {
    Filter(records, OtherKey(entry.recordId, entry.upgradeState)) + [entry]
  }

  /** The other entries keep their order and multiplicities. */
  lemma UpsertKeepsOthers(records: seq<CaptureRecord>, entry: CaptureRecord)
    ensures var other := OtherKey(entry.recordId, entry.upgradeState);
      Filter(Upsert(records, entry), other) == Filter(records, other)
    ensures IsSubseq(Upsert(records, entry)[..|Upsert(records, entry)| - 1], records)
  {
    var other := OtherKey(entry.recordId, entry.upgradeState);
    var kept := Filter(records, other);
    FilterConcat(kept, [entry], other);
    FilterAll(kept, other);
    assert Filter([entry], other) == [];
    assert Upsert(records, entry)[..|Upsert(records, entry)| - 1] == kept;
    FilterIsSubseq(records, other);
  }

  /** Capturing the same (record, phase) again replaces the earlier entry: the list is as if only
      the last capture had happened, and so has the same length. */
  lemma UpsertRepeat(records: seq<CaptureRecord>, first: CaptureRecord, second: CaptureRecord)
    requires first.recordId == second.recordId && first.upgradeState == second.upgradeState
    ensures Upsert(Upsert(records, first), second) == Upsert(records, second)
    ensures |Upsert(Upsert(records, first), second)| == |Upsert(records, first)|
  {
    var other := OtherKey(first.recordId, first.upgradeState);
    var kept := Filter(records, other);
    FilterConcat(kept, [first], other);
    FilterAll(kept, other);
    assert Filter([first], other) == [];
  }

  /** No two entries share a key. */
  ghost predicate UniqueKeys(records: seq<CaptureRecord>)
  {
    forall i, j :: 0 <= i < j < |records| ==> !HasKey(records[j], records[i].recordId, records[i].upgradeState)
  }

  /** Upserting keeps the keys unique; the list grows exactly when the key was new. */
  lemma {:induction false} UpsertUniqueKeys(records: seq<CaptureRecord>, entry: CaptureRecord)
    requires UniqueKeys(records)
    ensures UniqueKeys(Upsert(records, entry))
    ensures |Upsert(records, entry)| == if exists i :: 0 <= i < |records| && HasKey(records[i], entry.recordId, entry.upgradeState)
                                          then |records| else |records| + 1
  {
    var other := OtherKey(entry.recordId, entry.upgradeState);
    var kept := Filter(records, other);
    var r := Upsert(records, entry);
    forall i, j | 0 <= i < j < |r| ensures !HasKey(r[j], r[i].recordId, r[i].upgradeState) {
      if j < |r| - 1 {
        FilterIsSubseq(records, other);
        SubseqPairs(kept, records, i, j);
      }
    }
    if exists i :: 0 <= i < |records| && HasKey(records[i], entry.recordId, entry.upgradeState) {
      var i :| 0 <= i < |records| && HasKey(records[i], entry.recordId, entry.upgradeState);
      RemoveOne(records, other, i);
    } else {
      FilterAll(records, other);
    }
  }

  /** Two positions of a subsequence come from two positions of the sequence, in order. */
  lemma {:induction false} SubseqPairs(a: seq<CaptureRecord>, b: seq<CaptureRecord>, i: nat, j: nat)
    requires IsSubseq(a, b) && UniqueKeys(b) && i < j < |a|
    ensures !HasKey(a[j], a[i].recordId, a[i].upgradeState)
    decreases |b|
  {
    if a[0] == b[0] {
      assert UniqueKeys(b[1..]) by {
        forall x, y | 0 <= x < y < |b[1..]| ensures !HasKey(b[1..][y], b[1..][x].recordId, b[1..][x].upgradeState) {
          assert b[1..][x] == b[x + 1] && b[1..][y] == b[y + 1];
        }
      }
      if i == 0 {
        assert a[j] == a[1..][j - 1];
        SubseqMember(a[1..], b[1..], j - 1);
        var k :| 0 <= k < |b[1..]| && b[1..][k] == a[j];
        assert b[1..][k] == b[k + 1];
      } else {
        SubseqPairs(a[1..], b[1..], i - 1, j - 1);
      }
    } else {
      assert UniqueKeys(b[1..]) by {
        forall x, y | 0 <= x < y < |b[1..]| ensures !HasKey(b[1..][y], b[1..][x].recordId, b[1..][x].upgradeState) {
          assert b[1..][x] == b[x + 1] && b[1..][y] == b[y + 1];
        }
      }
      SubseqPairs(a, b[1..], i, j);
    }
  }

  /** Every element of a subsequence occurs in the sequence. */
  lemma {:induction false} SubseqMember(a: seq<CaptureRecord>, b: seq<CaptureRecord>, i: nat)
    requires IsSubseq(a, b) && i < |a|
    ensures exists k :: 0 <= k < |b| && b[k] == a[i]
    decreases |b|
  {
    if a[0] == b[0] {
      if i > 0 {
        SubseqMember(a[1..], b[1..], i - 1);
        var k :| 0 <= k < |b[1..]| && b[1..][k] == a[1..][i - 1];
        assert b[k + 1] == a[i];
      }
    } else {
      SubseqMember(a, b[1..], i);
      var k :| 0 <= k < |b[1..]| && b[1..][k] == a[i];
      assert b[k + 1] == a[i];
    }
  }

  /** With unique keys, filtering out one key removes exactly one entry when that key is present. */
  lemma {:induction false} RemoveOne(records: seq<CaptureRecord>, other: CaptureRecord -> bool, i: nat)
    requires UniqueKeys(records) && i < |records| && !other(records[i])
    requires forall j :: 0 <= j < |records| ==> (other(records[j]) <==> !HasKey(records[j], records[i].recordId, records[i].upgradeState))
    ensures |Filter(records, other)| == |records| - 1
    decreases |records|
  {
    var tail := records[1..];
    assert UniqueKeys(tail) by {
      forall x, y | 0 <= x < y < |tail| ensures !HasKey(tail[y], tail[x].recordId, tail[x].upgradeState) {
        assert tail[x] == records[x + 1] && tail[y] == records[y + 1];
      }
    }
    if i == 0 {
      forall j | 0 <= j < |tail| ensures other(tail[j]) {
        assert tail[j] == records[j + 1];
      }
      FilterAll(tail, other);
    } else {
      assert other(records[0]) by {
        assert !HasKey(records[i], records[0].recordId, records[0].upgradeState);
      }
      assert tail[i - 1] == records[i];
      forall j | 0 <= j < |tail|
        ensures other(tail[j]) <==> !HasKey(tail[j], tail[i - 1].recordId, tail[i - 1].upgradeState)
      {
        assert tail[j] == records[j + 1];
      }
      RemoveOne(tail, other, i - 1);
    }
  }

  // ---------------------------------------------------------------------------------------------
  // The phase of a capture

  /** Some entry records a 'before' capture of this record, of whatever object. */
  predicate HasBefore(records: seq<CaptureRecord>, recordId: string)
  {
    exists i :: 0 <= i < |records| && HasKey(records[i], recordId, "before")
  }

  /** `req.body.upgradeState || (some 'before' capture of this record ? 'after' : 'before')`. */
  function InferPhase(requested: string, records: seq<CaptureRecord>, recordId: string): (phase: string)
    ensures phase != []
    ensures requested != [] ==> phase == requested
    ensures requested == [] ==> (phase == "after" <==> HasBefore(records, recordId))
    ensures requested == [] ==> (phase == "before" <==> !HasBefore(records, recordId))
  {
    if requested != [] then requested else if HasBefore(records, recordId) then "after" else "before"
  }

  /** Once a 'before' capture of a record is recorded, the next capture of that record without an
      explicit phase is an 'after' capture. */
  lemma PhaseAfterBefore(records: seq<CaptureRecord>, entry: CaptureRecord)
    requires entry.upgradeState == "before"
    ensures InferPhase("", Upsert(records, entry), entry.recordId) == "after"
  {
    var r := Upsert(records, entry);
    assert HasKey(r[|r| - 1], entry.recordId, "before");
  }

  /** The phase does not depend on which object the earlier captures were of. */
  lemma {:induction false} PhaseIgnoresObject(records: seq<CaptureRecord>, others: seq<CaptureRecord>, requested: string, recordId: string)
    requires |records| == |others|
    requires forall i :: 0 <= i < |records| ==> records[i].recordId == others[i].recordId && records[i].upgradeState == others[i].upgradeState
    ensures InferPhase(requested, records, recordId) == InferPhase(requested, others, recordId)
  {
    if HasBefore(records, recordId) {
      var i :| 0 <= i < |records| && HasKey(records[i], recordId, "before");
      assert HasKey(others[i], recordId, "before");
    }
    if HasBefore(others, recordId) {
      var i :| 0 <= i < |others| && HasKey(others[i], recordId, "before");
      assert HasKey(records[i], recordId, "before");
    }
  }

  // ---------------------------------------------------------------------------------------------
  // POST /records/:recordId/capture

  /** `session.upgradeState` is written with the phase only when it was unset. */
  function WithPhaseIfUnset(entries: map<string, Value>, phase: string): (e: map<string, Value>)
    ensures Truthy(Lookup(entries, UpgradeStateKey)) ==> e == entries
    ensures !Truthy(Lookup(entries, UpgradeStateKey)) ==> e == entries[UpgradeStateKey := Str(phase)]
  {
    if Truthy(Lookup(entries, UpgradeStateKey)) then entries else entries[UpgradeStateKey := Str(phase)]
  }

  /** The metadata stored for a capture. */
  function Metadata(recordId: string, recordUrl: string, selection: SelectedObject, phase: string, result: CaptureResult): CaptureRecord
  {
    CaptureRecord(recordId, recordUrl, selection.apiName, selection.labelText, phase,
                  result.screenshotPath, result.screenshotFilename, result.recordName, result.capturedAt)
  }

  /** The request the route hands to the capture service. */
  function RouteRequest(entries: map<string, Value>, recordId: string, recordUrl: string, selection: SelectedObject, phase: string): CaptureRequest
  {
    CaptureRequest(recordUrl, StrEntry(entries, AccessTokenKey), StrEntry(entries, InstanceUrlKey), recordId, selection.apiName, phase)
  }

  /** POST `/records/:recordId/capture`: check authentication, the record URL and the selection,
      infer the phase, record it if no phase is set, capture, then upsert the metadata. The phase
      stays recorded even when the capture fails. */
  method CaptureRoute(session: Session, pw: Playwright, store: ArtifactStore, env: BrowserEnv,
                      recordId: string, recordUrl: string, requested: string, now: nat, capturedAt: string)
      returns (r: Result<CaptureRecord, RouteError>)
    requires pw.Valid() && Bounded(env)
    modifies session, pw, store
    ensures pw.Valid() && pw.live == old(pw.live)
    ensures !Authenticated(old(session.entries)) ==>
      r == Failure(NotAuthenticated) && session.entries == old(session.entries) && store.files == old(store.files)
    ensures Authenticated(old(session.entries)) && recordUrl == [] ==>
      r == Failure(MissingRecordUrl) && session.entries == old(session.entries) && store.files == old(store.files)
    ensures Authenticated(old(session.entries)) && recordUrl != [] && SelectionOf(old(session.entries)).None? ==>
      r == Failure(NoObjectSelected) && session.entries == old(session.entries) && store.files == old(store.files)
    ensures Authenticated(old(session.entries)) && recordUrl != [] && SelectionOf(old(session.entries)).Some? ==>
      var entries := old(session.entries);
      var selection := SelectionOf(entries).value;
      var phase := InferPhase(requested, CapturedRecordsOf(entries), recordId);
      var request := RouteRequest(entries, recordId, recordUrl, selection, phase);
      var outcome := CaptureOutcome(env, request, capturedAt);
      && store.files == CaptureFiles(env, request, now, old(store.files))
      && (outcome.Failure? ==> r == Failure(CaptureFailed(outcome.error)) && session.entries == WithPhaseIfUnset(entries, phase))
      && (outcome.Success? ==>
            var entry := Metadata(recordId, recordUrl, selection, phase, outcome.value);
            && r == Success(entry)
            && session.entries == WithPhaseIfUnset(entries, phase)[CapturedRecordsKey := Captures(Upsert(CapturedRecordsOf(entries), entry))])
  {
    if !Authenticated(session.entries) {
      return Failure(NotAuthenticated);
    }
    if recordUrl == [] {
      return Failure(MissingRecordUrl);
    }
    var selection := SelectionOf(session.entries);
    if selection.None? {
      return Failure(NoObjectSelected);
    }
    ghost var entries := session.entries;
    var records := CapturedRecordsOf(session.entries);
    var phase := InferPhase(requested, records, recordId);
    if !Truthy(Lookup(session.entries, UpgradeStateKey)) {
      session.Set(UpgradeStateKey, Str(phase));
    }
    var request := RouteRequest(session.entries, recordId, recordUrl, selection.value, phase);
    var outcome := CaptureRecordScreenshot(pw, store, env, request, now, capturedAt);
    if outcome.Failure? {
      return Failure(CaptureFailed(outcome.error));
    }
    var entry := Metadata(recordId, recordUrl, selection.value, phase, outcome.value);
    session.Set(CapturedRecordsKey, Captures(Upsert(records, entry)));
    r := Success(entry);
  }

  // ---------------------------------------------------------------------------------------------
  // The upgrade state

  /** POST `/upgrade-state`: only 'before' and 'after' are accepted. */
  method SetUpgradeState(session: Session, upgradeState: string) returns (r: Result<string, RouteError>)
    modifies session
    ensures upgradeState == "before" || upgradeState == "after" ==>
      r == Success(upgradeState) && session.entries == old(session.entries)[UpgradeStateKey := Str(upgradeState)]
    ensures upgradeState != "before" && upgradeState != "after" ==>
      r == Failure(InvalidUpgradeState) && session.entries == old(session.entries)
  {
    if upgradeState == [] || (upgradeState != "before" && upgradeState != "after") {
      return Failure(InvalidUpgradeState);
    }
    session.Set(UpgradeStateKey, Str(upgradeState));
    r := Success(upgradeState);
  }

  /** GET `/upgrade-state`: the stored state, 'before' by default. */
  function UpgradeStateOf(entries: map<string, Value>): (s: string)
    ensures s != []
    ensures StrEntry(entries, UpgradeStateKey) != [] ==> s == StrEntry(entries, UpgradeStateKey)
    ensures StrEntry(entries, UpgradeStateKey) == [] ==> s == "before"
  {
    var stored := StrEntry(entries, UpgradeStateKey);
    if stored != [] then stored else "before"
  }

  /** What POST stores, GET reads back. */
  lemma SetThenGetUpgradeState(entries: map<string, Value>, upgradeState: string)
    requires upgradeState == "before" || upgradeState == "after"
    ensures UpgradeStateOf(entries[UpgradeStateKey := Str(upgradeState)]) == upgradeState
  {
  }

  /** A capture never changes an upgrade state that was already set. */
  lemma CaptureKeepsUpgradeState(entries: map<string, Value>, phase: string)
    requires Truthy(Lookup(entries, UpgradeStateKey))
    ensures UpgradeStateOf(WithPhaseIfUnset(entries, phase)) == UpgradeStateOf(entries)
  {
  }

  // ---------------------------------------------------------------------------------------------
  // POST /records/:recordId/compare

  /** POST `/records/:recordId/compare`. */
  function CompareRoute(objectApiName: string, recordId: string, files: map<string, seq<Byte>>,
                        recognize: seq<Byte> -> Option<string>, comparedAt: string): (r: Result<ComparisonResult, RouteError>)
    ensures objectApiName == [] ==> r == Failure(MissingObjectName)
    ensures objectApiName != [] ==> (r.Success? <==> CompareRecordScreenshots(objectApiName, recordId, files, recognize, comparedAt).Success?)
    ensures objectApiName != [] && r.Success? ==> r.value == CompareRecordScreenshots(objectApiName, recordId, files, recognize, comparedAt).value
    ensures objectApiName != [] && r.Failure? ==> r.error == ComparisonFailed(CompareRecordScreenshots(objectApiName, recordId, files, recognize, comparedAt).error)
  {
    if objectApiName == [] then Failure(MissingObjectName)
    else match CompareRecordScreenshots(objectApiName, recordId, files, recognize, comparedAt)
      case Success(c) => Success(c)
      case Failure(e) => Failure(ComparisonFailed(e))
  }

  /** The two phases name different files. */
  lemma PhaseFilesDiffer(objectApiName: string, recordId: string)
    ensures ArtifactFilename(objectApiName, recordId, "before") != ArtifactFilename(objectApiName, recordId, "after")
  {
    assert |ArtifactFilename(objectApiName, recordId, "before")| != |ArtifactFilename(objectApiName, recordId, "after")|;
  }

  /** A successful 'before' capture and a successful 'after' capture of the same object and
      record leave exactly the two files the comparison reads, so the comparison runs on the two
      rendered pages. */
  lemma CaptureThenCompare(before: BrowserEnv, after: BrowserEnv, objectApiName: string, recordId: string,
                           beforeReq: CaptureRequest, afterReq: CaptureRequest, t1: nat, t2: nat, capturedAt1: string, capturedAt2: string,
                           files: map<string, seq<Byte>>, recognize: seq<Byte> -> Option<string>, comparedAt: string)
    requires beforeReq.objectApiName == objectApiName && beforeReq.recordId == recordId && beforeReq.upgradeState == "before"
    requires afterReq.objectApiName == objectApiName && afterReq.recordId == recordId && afterReq.upgradeState == "after"
    requires CaptureOutcome(before, beforeReq, capturedAt1).Success? && CaptureOutcome(after, afterReq, capturedAt2).Success?
    ensures var final := CaptureFiles(after, afterReq, t2, CaptureFiles(before, beforeReq, t1, files));
      var c := CompareRecordScreenshots(objectApiName, recordId, final, recognize, comparedAt);
      && (c.Success? <==> recognize(before.image).Some? && recognize(after.image).Some?)
      && (c.Success? ==> c.value == CompareTexts(Trim(recognize(before.image).value), Trim(recognize(after.image).value), comparedAt))
  {
    CaptureSuccess(before, beforeReq, t1, capturedAt1, files);
    var mid := CaptureFiles(before, beforeReq, t1, files);
    CaptureSuccess(after, afterReq, t2, capturedAt2, mid);
    PhaseFilesDiffer(objectApiName, recordId);
  }

  /** Because the phase and the upsert key ignore the object, a 'before' capture of one object
      makes the next capture of the same record id under another object an 'after' capture,
      although no 'before' file exists for that object: its comparison reports the missing
      'before' screenshot. */
  lemma PhaseAcrossObjects(records: seq<CaptureRecord>, entry: CaptureRecord, otherObject: string,
                           files: map<string, seq<Byte>>, recognize: seq<Byte> -> Option<string>, comparedAt: string)
    requires entry.upgradeState == "before" && ArtifactFilename(otherObject, entry.recordId, "before") !in files
    ensures InferPhase("", Upsert(records, entry), entry.recordId) == "after"
    ensures CompareRecordScreenshots(otherObject, entry.recordId, files, recognize, comparedAt)
         == Failure(BeforeScreenshotNotFound(ArtifactFilename(otherObject, entry.recordId, "before")))
  {
    PhaseAfterBefore(records, entry);
  }
}
