/** The comparison page of the client: which captured records it offers for comparison, and the
    colour band it paints a similarity score in. */
module ComparisonPage {
  import opened Seqs
  import opened Session
  import opened Comparison

  /** `self.some(...)`: another capture of the same record and object taken after the upgrade. */
  predicate HasAfter(records: seq<CaptureRecord>, record: CaptureRecord)
  {
    exists j :: 0 <= j < |records| && records[j].recordId == record.recordId
      && records[j].objectName == record.objectName && records[j].upgradeState == "after"
  }

  /** Whether the pairing filter keeps `record`: it is a 'before' capture with an 'after' partner. */
  predicate Comparable(records: seq<CaptureRecord>, record: CaptureRecord)
  {
    record.upgradeState == "before" && HasAfter(records, record)
  }

  /** The records listed on the comparison page, in the order the server returned them: each is
      a returned 'before' capture whose 'after' capture of the same record and object was also
      returned. */
  function ComparableRecords(records: seq<CaptureRecord>): (r: seq<CaptureRecord>)
    ensures |r| <= |records|
    ensures forall k :: 0 <= k < |r| ==>
      && r[k] in records && r[k].upgradeState == "before"
      && (exists j :: 0 <= j < |records| && records[j].upgradeState == "after"
                      && records[j].recordId == r[k].recordId && records[j].objectName == r[k].objectName)
  {
    Filter(records, record => Comparable(records, record))
  }

  /** The listed records are the returned ones, in their order, with some left out. */
  lemma ComparableIsSubseq(records: seq<CaptureRecord>)
    ensures IsSubseq(ComparableRecords(records), records)
  {
    FilterIsSubseq(records, record => Comparable(records, record));
  }

  /** Every 'before' capture that has an 'after' partner is listed. */
  lemma ComparableComplete(records: seq<CaptureRecord>, i: nat, j: nat)
    requires i < |records| && j < |records|
    requires records[i].upgradeState == "before" && records[j].upgradeState == "after"
    requires records[j].recordId == records[i].recordId && records[j].objectName == records[i].objectName
    ensures records[i] in ComparableRecords(records)
  {
    assert Comparable(records, records[i]);
  }

  /** Without any 'after' capture nothing is offered for comparison. */
  lemma {:induction false} NoAfterNoComparison(records: seq<CaptureRecord>)
    requires forall i :: 0 <= i < |records| ==> records[i].upgradeState != "after"
    ensures ComparableRecords(records) == []
  {
    FilterNone(records, record => Comparable(records, record));
  }

  /** The three colour bands of `getSimilarityColor`. */
  const Green := "#28a745"
  const Yellow := "#ffc107"
  const Red := "#dc3545"

  /** `getSimilarityColor`: green from 95, yellow from 80, red below. */
  function SimilarityColor(similarity: real): (colour: string)
    ensures colour == Green <==> similarity >= 95.0
    ensures colour == Yellow <==> 80.0 <= similarity < 95.0
    ensures colour == Red <==> similarity < 80.0
  {
    if similarity >= 95.0 then Green
    else if similarity >= 80.0 then Yellow
    else Red
  }

  /** The bands ordered from worst to best. */
  function Band(colour: string): nat
  {
    if colour == Green then 2 else if colour == Yellow then 1 else 0
  }

  /** A higher similarity never gets a worse colour. */
  lemma SimilarityColorMonotone(s: real, t: real)
    requires s <= t
    ensures Band(SimilarityColor(s)) <= Band(SimilarityColor(t))
  {
  }

  /** Comparing a text with itself scores 100, which is painted green. */
  lemma IdenticalTextsAreGreen(text: string, comparedAt: string)
    ensures SimilarityColor(CompareTexts(text, text, comparedAt).similarity) == Green
  {
    CompareSelf(text, comparedAt);
  }
}
