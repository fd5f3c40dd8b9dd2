// The web client's two reads of the `iss_location` collection: every record,
// and the latest record by the derived sort key. A query snapshot is given
// as the sequence of its documents, in the order the snapshot iterates them.

module FirestoreService {
  import opened Documents

  /** `null` or a value. */
  datatype Option<T> = None | Some(value: T)

  // ---------------------------------------------------------------------------
  // getISSData
  // ---------------------------------------------------------------------------

  /** Every document becomes one record, in the snapshot's order. */
  method GetISSData(snapshot: seq<Document>) returns (data: seq<Fields>)
    ensures |data| == |snapshot|
    ensures forall i :: 0 <= i < |snapshot| ==> data[i] == Project(snapshot[i])
  {
    data := [];
    for i := 0 to |snapshot|
      invariant |data| == i
      invariant forall j :: 0 <= j < i ==> data[j] == Project(snapshot[j])
    {
      data := data + [Project(snapshot[i])];
    }
  }

  // ---------------------------------------------------------------------------
  // getLatestISSData: what it is meant to return
  // ---------------------------------------------------------------------------

  /** The largest of 0 and the keys of `s`: the value `latestTimestamp` holds
      once the scan has seen `s`. */
  function MaxKey(s: seq<Document>): (m: int)
    ensures m >= 0
    ensures forall i :: 0 <= i < |s| ==> Key(s[i].data) <= m
    ensures m == 0 || exists i :: 0 <= i < |s| && Key(s[i].data) == m
  {
    if s == [] then 0
    else
      var m' := MaxKey(s[..|s| - 1]);
      var k := Key(s[|s| - 1].data);
      if k > m' then k else m'
  }

  /** Document `i` is the one the scan keeps: its key is positive, no key in
      `s` is larger, and every document before it has a strictly smaller key. */
  predicate IsLatest(s: seq<Document>, i: int) {
    && 0 <= i < |s|
    && Key(s[i].data) > 0
    && (forall j :: 0 <= j < |s| ==> Key(s[j].data) <= Key(s[i].data))
    && (forall j :: 0 <= j < i ==> Key(s[j].data) < Key(s[i].data))
  }

  /** At most one document of a snapshot is the latest. */
  lemma LatestUnique(s: seq<Document>, i: int, j: int)
    requires IsLatest(s, i) && IsLatest(s, j)
    ensures i == j
  {
    // a later one would have to be strictly larger than an earlier one and
    // no larger than it at the same time
  }

  /** The position of the document the scan keeps, if any. */
  function LatestIndex(s: seq<Document>): (r: Option<nat>)
    ensures r.None? <==> forall i :: 0 <= i < |s| ==> Key(s[i].data) <= 0
    ensures r.Some? ==> IsLatest(s, r.value)
  {
    if s == [] then None
    else
      var p := s[..|s| - 1];
      if Key(s[|s| - 1].data) > MaxKey(p) then Some(|s| - 1)
      else
        var r := LatestIndex(p);
        assert forall j :: 0 <= j < |p| ==> p[j] == s[j];
        r
  }

  /** The record the scan returns, if any. */
  function LatestRecord(s: seq<Document>): Option<Fields> {
    match LatestIndex(s)
    case None => None
    case Some(i) => Some(Project(s[i]))
  }

  // ---------------------------------------------------------------------------
  // getLatestISSData
  // ---------------------------------------------------------------------------

  /** The scan: the running maximum starts at 0 and is replaced only by a
      strictly larger key, taking that document's record with it. */
  method GetLatestISSData(snapshot: seq<Document>) returns (latestData: Option<Fields>)
    ensures latestData == LatestRecord(snapshot)
    ensures latestData.None? <==> forall i :: 0 <= i < |snapshot| ==> Key(snapshot[i].data) <= 0
    ensures latestData.Some? ==>
              && Key(latestData.value) > 0
              && (forall i :: 0 <= i < |snapshot| ==> Key(snapshot[i].data) <= Key(latestData.value))
              && exists i :: IsLatest(snapshot, i) && latestData.value == Project(snapshot[i])
  {
    latestData := None;
    var latestTimestamp := 0;
    for i := 0 to |snapshot|
      invariant latestData.None? <==> latestTimestamp == 0
      invariant latestTimestamp == MaxKey(snapshot[..i])
      invariant latestData == LatestRecord(snapshot[..i])
      invariant latestData.Some? ==> Key(latestData.value) == latestTimestamp
    {
      assert snapshot[..i + 1][..i] == snapshot[..i];
      var docData := snapshot[i].data;
      var timestamp := Key(docData);
      if timestamp > latestTimestamp {
        latestTimestamp := timestamp;
        latestData := Some(Project(snapshot[i]));
        ProjectKeepsKey(snapshot[i]);
      }
    }
    assert snapshot[..|snapshot|] == snapshot;
    if latestData.Some? {
      var w := LatestIndex(snapshot).value;
      ProjectKeepsKey(snapshot[w]);
      assert IsLatest(snapshot, w);
    }
  }

  // ---------------------------------------------------------------------------
  // Properties of the latest record
  // ---------------------------------------------------------------------------

  /** The latest record is one of the records `getISSData` returns for the same
      snapshot, and it sorts as the maximum key of the snapshot. */
  lemma LatestRecordKey(s: seq<Document>)
    ensures LatestRecord(s).None? <==> MaxKey(s) == 0
    ensures LatestRecord(s).Some? ==>
              Key(LatestRecord(s).value) == MaxKey(s) > 0
              && exists i :: 0 <= i < |s| && LatestRecord(s).value == Project(s[i])
  {
  }

  /** Among documents sharing the largest key, the first one in iteration
      order is returned: a later equal key fails the strict comparison. */
  lemma EarlierTieWins(s: seq<Document>, i: int, j: int)
    requires 0 <= i < j < |s|
    requires Key(s[i].data) == Key(s[j].data)
    ensures LatestIndex(s) != Some(j)
  {
  }

  /** A document appended last, whose key exceeds 0 and every key already
      seen, becomes the latest, as a newly stored sample does. */
  lemma NewerDocumentWins(s: seq<Document>, d: Document)
    requires Key(d.data) > MaxKey(s)
    ensures LatestRecord(s + [d]) == Some(Project(d))
  {
  }

  /** Documents whose keys are no larger than the maximum already seen never
      change the outcome. */
  lemma {:induction false} LatestAppendNotNewer(s: seq<Document>, t: seq<Document>)
    requires forall j :: 0 <= j < |t| ==> Key(t[j].data) <= MaxKey(s)
    ensures MaxKey(s + t) == MaxKey(s)
    ensures LatestIndex(s + t) == LatestIndex(s)
  {
    if t != [] {
      var t' := t[..|t| - 1];
      assert (s + t)[..|s + t| - 1] == s + t';
      LatestAppendNotNewer(s, t');
    } else {
      assert s + t == s;
    }
  }

  /** A document whose key is 0 or negative neither wins nor changes which
      document does, wherever it stands in the snapshot. */
  lemma LatestIgnoresNonPositive(s1: seq<Document>, d: Document, s2: seq<Document>)
    requires Key(d.data) <= 0
    ensures LatestRecord(s1 + [d] + s2) == LatestRecord(s1 + s2)
  {
    var t := s1 + s2;
    var u := s1 + [d] + s2;
    // u is t with d inserted at position |s1|
    assert forall j :: 0 <= j < |s1| ==> u[j] == t[j];
    assert forall j :: |s1| <= j < |t| ==> u[j + 1] == t[j];
    match LatestIndex(t)
    case None =>
      forall j | 0 <= j < |u|
        ensures Key(u[j].data) <= 0
      {
        if j > |s1| {
          assert u[j] == t[j - 1];
        }
      }
    case Some(i) =>
      var i' := if i < |s1| then i else i + 1;
      assert u[i'] == t[i];
      forall j | 0 <= j < |u|
        ensures Key(u[j].data) <= Key(u[i'].data)
        ensures j < i' ==> Key(u[j].data) < Key(u[i'].data)
      {
        if j > |s1| {
          assert u[j] == t[j - 1];
        }
      }
      assert IsLatest(u, i');
      LatestUnique(u, LatestIndex(u).value, i');
  }

  // ---------------------------------------------------------------------------
  // Worked snapshots
  // ---------------------------------------------------------------------------

  /** A negative `timestamp` is truthy, so it hides whatever `createdAt`
      holds: the key is negative and the document is never returned. */
  lemma NegativeTimestampNeverWins(s: seq<Document>, i: nat)
    requires i < |s|
    requires TimestampField in s[i].data && s[i].data[TimestampField].Number?
    requires s[i].data[TimestampField].n < 0
    ensures LatestIndex(s) != Some(i)
  {
  }

  /** A document whose `timestamp` is falsy sorts by its `createdAt`
      milliseconds; when those exceed another document's truthy `timestamp`,
      that other document is never returned, however the two were stored. */
  lemma CreatedAtOutranksSmallerTimestamp(s: seq<Document>, i: nat, j: nat)
    requires i < |s| && j < |s|
    requires TimestampField in s[i].data && s[i].data[TimestampField].Number?
    requires s[i].data[TimestampField].n != 0
    requires TimestampField !in s[j].data || s[j].data[TimestampField] in {Null, Number(0)}
    requires CreatedAtField in s[j].data && s[j].data[CreatedAtField].Timestamp?
    requires s[j].data[CreatedAtField].millis > s[i].data[TimestampField].n
    ensures LatestIndex(s) != Some(i)
  {
  }

  /** An example, assuming the upstream `timestamp` is in seconds while
      `createdAt` is in milliseconds. A `timestamp` of 0 is falsy, so that
      document sorts by its `createdAt`, and it outranks one stored a minute
      later with a truthy `timestamp`. */
  lemma SecondsVersusMillisExample()
    ensures LatestRecord([
              Document("later", map[TimestampField := Number(1700000060),
                                    CreatedAtField := Timestamp(1700000060000)]),
              Document("earlier", map[TimestampField := Number(0),
                                      CreatedAtField := Timestamp(1700000000000)])])
            == Some(Project(Document("earlier", map[TimestampField := Number(0),
                                                    CreatedAtField := Timestamp(1700000000000)])))
  {
  }
}
