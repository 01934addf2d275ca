/**
 * The producer's per-minute de-duplication: after storing a detection it
 * looks up the newest record of the same source, location, date and minute,
 * and deletes every other record of that minute, so that the collection
 * keeps one detection per camera and minute.
 */
module Producer {
  import opened Strings
  import opened Sequences
  import opened Wrappers

  /** A value of the configured source list: a camera index or a stream address. */
  datatype Source = Camera(index: nat) | Stream(address: string)

  /**
   * A document of the detections collection as the producer writes it:
   * `_id`, the `time` and `date` strings, the capitalised `Location`, the
   * `timestamp` and the `source`. The store keeps a timestamp as whole
   * milliseconds since the epoch, so that is its unit here.
   */
  datatype Detection = Detection(id: nat, time: string, date: string, Location: string, timestamp: int, source: Source)

  const Unknown := "Unknown"

  /** One minute, in milliseconds. */
  const MinuteLength := 60000

  /**
   * `location_dict.get(source, "Unknown")` as written. The dictionary is
   * decoded from JSON text, so all its keys are strings, and a camera
   * index, being a number, equals none of them.
   */
  function LocationOfAsWritten(locations: map<string, string>, source: Source): (location: string)
    ensures location == Unknown || location in locations.Values
  {
    match source
    case Camera(_) => Unknown
    case Stream(address) => if address in locations then locations[address] else Unknown
  }

  /** The key under which a source's location is configured: the text of its index, or its address. */
  function SourceKey(source: Source): string
  {
    match source
    case Camera(index) => Decimal(index)
    case Stream(address) => address
  }

  /** Whatever the configuration, a camera is looked up as `Unknown`, so a configured name is lost. */
  lemma CameraSourceLosesName(locations: map<string, string>, index: nat)
    ensures LocationOfAsWritten(locations, Camera(index)) == Unknown
    ensures SourceKey(Camera(index)) in locations && locations[SourceKey(Camera(index))] != Unknown ==>
      LocationOfAsWritten(locations, Camera(index)) != locations[SourceKey(Camera(index))]
  {
  }

  /** The lookup the configuration evidently means: by the source's key, `Unknown` when it is not configured. */
  function LocationOf(locations: map<string, string>, source: Source): (location: string)
    ensures location == Unknown || location in locations.Values
  {
    var key := SourceKey(source);
    if key in locations then locations[key] else Unknown
  }

  /** Every configured source, camera or stream, gets its configured name; streams are looked up as before. */
  lemma LocationOfNamesEverySource(locations: map<string, string>, source: Source)
    ensures SourceKey(source) in locations ==> LocationOf(locations, source) == locations[SourceKey(source)]
    ensures SourceKey(source) !in locations ==> LocationOf(locations, source) == Unknown
    ensures source.Stream? ==> LocationOf(locations, source) == LocationOfAsWritten(locations, source)
  {
  }

  /** `current_time.replace(second=0, microsecond=0)`: the minute boundary at or before `t`. */
  function StartOfMinute(t: int): (start: int)
    ensures start <= t < start + MinuteLength
    ensures start % MinuteLength == 0
  {
    t - t % MinuteLength
  }

  /** The minute boundary is the only multiple of a minute at most one minute before `t`. */
  lemma StartOfMinuteUnique(t: int, start: int)
    requires start % MinuteLength == 0 && start <= t < start + MinuteLength
    ensures StartOfMinute(t) == start
  {
    var k := start / MinuteLength;
    assert start == k * MinuteLength;
    var m := StartOfMinute(t) / MinuteLength;
    assert StartOfMinute(t) == m * MinuteLength;
    assert (m - k) * MinuteLength == StartOfMinute(t) - start;
    assert -MinuteLength < StartOfMinute(t) - start < MinuteLength;
  }

  /** The filter document of the two lookups: minute window, location, date string and source. */
  datatype Query = Query(start: int, location: string, date: string, source: Source)

  /**
   * The filter built for `now`: the window `[start, start + 1 minute)` of
   * the minute holding `now`, the `location` the source is looked up as,
   * `now` formatted as a `dd/mm/YYYY` string by `dateOf`, and the source
   * itself.
   */
  function MinuteQuery(source: Source, location: string, now: int, dateOf: int -> string): (q: Query)
    ensures q.start <= now < q.start + MinuteLength && q.start % MinuteLength == 0
    ensures q.location == location && q.date == dateOf(now) && q.source == source
  {
    Query(StartOfMinute(now), location, dateOf(now), source)
  }

  /** A record matches when all four conditions hold. */
  predicate Matches(d: Detection, q: Query)
  {
    q.start <= d.timestamp < q.start + MinuteLength &&
    d.Location == q.location && d.date == q.date && d.source == q.source
  }

  /**
   * The window of the filter is exactly the minute of `now`: a record
   * matches when it falls in the same minute and has the same location,
   * date string and source.
   */
  lemma MinuteQueryMatches(d: Detection, source: Source, location: string, now: int, dateOf: int -> string)
    ensures Matches(d, MinuteQuery(source, location, now, dateOf))
        <==> && StartOfMinute(d.timestamp) == StartOfMinute(now)
             && d.Location == location && d.date == dateOf(now) && d.source == source
  {
    var start := StartOfMinute(now);
    if start <= d.timestamp < start + MinuteLength {
      StartOfMinuteUnique(d.timestamp, start);
    }
  }

  /**
   * `get_last_detection`: a matching record with the greatest timestamp, or
   * none when no record matches. (Of records with equal timestamps it
   * takes the earliest stored; the store leaves that choice open.)
   */
  function GetLastDetection(docs: seq<Detection>, q: Query): (r: Option<Detection>)
    ensures r.None? <==> forall i :: 0 <= i < |docs| ==> !Matches(docs[i], q)
    ensures r.Some? ==> r.value in docs && Matches(r.value, q)
    ensures r.Some? ==> forall i :: 0 <= i < |docs| && Matches(docs[i], q) ==> docs[i].timestamp <= r.value.timestamp
  {
    if docs == [] then None
    else
      var prior := GetLastDetection(docs[..|docs| - 1], q);
      var last := docs[|docs| - 1];
      assert docs == docs[..|docs| - 1] + [last];
      if Matches(last, q) && (prior.None? || prior.value.timestamp < last.timestamp) then Some(last)
      else prior
  }

  /** `delete_many` keeps a record that is the one kept or does not match. */
  predicate Survives(d: Detection, q: Query, kept: nat)
  {
    d.id == kept || !Matches(d, q)
  }

  /** The collection after `delete_old_detections`: only records that match are ever deleted. */
  function Deduplicated(docs: seq<Detection>, q: Query): (r: seq<Detection>)
    ensures forall d :: d in r ==> d in docs
    ensures forall d :: d in docs && !Matches(d, q) ==> d in r
  {
    match GetLastDetection(docs, q)
    case None => docs
    case Some(latest) => Filter(docs, (d: Detection) => Survives(d, q, latest.id))
  }

  /** Every `_id` occurs once. */
  predicate IdsDistinct(docs: seq<Detection>)
  {
    forall i, j :: 0 <= i < j < |docs| ==> docs[i].id != docs[j].id
  }

  lemma IdsDistinctCons(x: Detection, t: seq<Detection>)
    ensures IdsDistinct([x] + t) <==> (forall y :: y in t ==> y.id != x.id) && IdsDistinct(t)
  {
    var s := [x] + t;
    assert s[1..] == t;
    if (forall y :: y in t ==> y.id != x.id) && IdsDistinct(t) {
      forall i, j | 0 <= i < j < |s| ensures s[i].id != s[j].id {
        if i == 0 {
          assert s[j] == t[j - 1] && t[j - 1] in t;
        } else {
          assert s[i] == t[i - 1] && s[j] == t[j - 1];
        }
      }
    }
    if IdsDistinct(s) {
      forall i, j | 0 <= i < j < |t| ensures t[i].id != t[j].id {
        assert t[i] == s[i + 1] && t[j] == s[j + 1];
      }
      forall y | y in t ensures y.id != x.id {
        var k :| 0 <= k < |t| && t[k] == y;
        assert s[k + 1] == y && s[0] == x && 0 < k + 1;
      }
    }
  }

  lemma {:induction false} FilterIdsDistinct(docs: seq<Detection>, p: Detection -> bool)
    requires IdsDistinct(docs)
    ensures IdsDistinct(Filter(docs, p))
  {
    if docs != [] {
      assert docs == [docs[0]] + docs[1..];
      IdsDistinctCons(docs[0], docs[1..]);
      FilterIdsDistinct(docs[1..], p);
      var rest := Filter(docs[1..], p);
      if p(docs[0]) {
        IdsDistinctCons(docs[0], rest);
      }
    }
  }

  /** After the deletion the matching records are exactly the latest one, or none when nothing matched. */
  lemma DeduplicatedLeavesLatest(docs: seq<Detection>, q: Query)
    requires IdsDistinct(docs)
    ensures Filter(Deduplicated(docs, q), (d: Detection) => Matches(d, q))
         == match GetLastDetection(docs, q) case None => [] case Some(latest) => [latest]
  {
    var matching := (d: Detection) => Matches(d, q);
    match GetLastDetection(docs, q)
    case None =>
      FilterNone(docs, matching);
    case Some(latest) =>
      var survives := (d: Detection) => Survives(d, q, latest.id);
      var both := (d: Detection) => d.id == latest.id && Matches(d, q);
      FilterFilter(docs, survives, matching, both);
      var k :| 0 <= k < |docs| && docs[k] == latest;
      FilterSingle(docs, both, k);
  }

  /** Records outside the filter are neither deleted nor reordered; when nothing matched nothing changes. */
  lemma DeduplicatedKeepsOthers(docs: seq<Detection>, q: Query)
    ensures Filter(Deduplicated(docs, q), (d: Detection) => !Matches(d, q))
         == Filter(docs, (d: Detection) => !Matches(d, q))
    ensures GetLastDetection(docs, q).None? ==> Deduplicated(docs, q) == docs
    ensures SubsequenceOf(Deduplicated(docs, q), docs)
  {
    var other := (d: Detection) => !Matches(d, q);
    match GetLastDetection(docs, q)
    case None =>
      SubsequenceReflexive(docs);
    case Some(latest) =>
      var survives := (d: Detection) => Survives(d, q, latest.id);
      FilterFilter(docs, survives, other, other);
  }

  /** A second deletion with the same arguments deletes nothing. */
  lemma DeduplicatedIdempotent(docs: seq<Detection>, q: Query)
    requires IdsDistinct(docs)
    ensures Deduplicated(Deduplicated(docs, q), q) == Deduplicated(docs, q)
  {
    match GetLastDetection(docs, q)
    case None =>
    case Some(latest) =>
      var survives := (d: Detection) => Survives(d, q, latest.id);
      var r := Filter(docs, survives);
      assert latest in r;
      DeduplicatedLeavesLatest(docs, q);
      var again := GetLastDetection(r, q).value;
      assert again in Filter(r, (d: Detection) => Matches(d, q));
      assert again == latest;
      FilterKeepsAll(r, survives);
  }

  /**
   * The document the detection step builds for `now` (before the store
   * assigns its `_id`), stored under `location`: it falls under the filter
   * the pruning builds for the same `now`.
   */
  function NewDetection(id: nat, source: Source, location: string, now: int,
                        dateOf: int -> string, timeOf: int -> string): (d: Detection)
    ensures d.id == id && d.timestamp == now && d.Location == location && d.source == source
    ensures d.date == dateOf(now) && d.time == timeOf(now)
    ensures Matches(d, MinuteQuery(source, location, now, dateOf))
  {
    Detection(id, timeOf(now), dateOf(now), location, now, source)
  }

  /**
   * Insert-then-prune keeps exactly one record of the new detection's
   * source, location, date and minute; when the new one is strictly the
   * newest of them, it is that one.
   */
  lemma InsertThenDeduplicate(docs: seq<Detection>, id: nat, source: Source, location: string, now: int,
                              dateOf: int -> string, timeOf: int -> string)
    requires IdsDistinct(docs) && forall i :: 0 <= i < |docs| ==> docs[i].id != id
    ensures var d := NewDetection(id, source, location, now, dateOf, timeOf);
      var q := MinuteQuery(source, location, now, dateOf);
      var kept := Filter(Deduplicated(docs + [d], q), (e: Detection) => Matches(e, q));
      && |kept| == 1
      && ((forall i :: 0 <= i < |docs| && Matches(docs[i], q) ==> docs[i].timestamp < now) ==> kept == [d])
  {
    var d := NewDetection(id, source, location, now, dateOf, timeOf);
    var q := MinuteQuery(source, location, now, dateOf);
    var all := docs + [d];
    assert all[|docs|] == d && Matches(d, q);
    assert IdsDistinct(all);
    DeduplicatedLeavesLatest(all, q);
    assert all[..|all| - 1] == docs;
  }

  /** The detections collection, as the producer's threads share it. */
  class Collection {
    var docs: seq<Detection>
    var nextId: nat

    /** Every `_id` occurs once and none has been handed out twice. */
    ghost predicate Valid()
      reads this
    {
      IdsDistinct(docs) && forall i :: 0 <= i < |docs| ==> docs[i].id < nextId
    }

    constructor ()
      ensures Valid() && docs == []
    {
      docs := [];
      nextId := 0;
    }

    /** `insert_one`: the document is stored under a fresh `_id`. */
    method InsertOne(d: Detection) returns (id: nat)
      requires Valid()
      modifies this
      ensures Valid()
      ensures forall i :: 0 <= i < |old(docs)| ==> old(docs)[i].id != id
      ensures docs == old(docs) + [d.(id := id)]
    {
      id := nextId;
      docs := docs + [d.(id := id)];
      nextId := nextId + 1;
    }

    /**
     * `delete_old_detections`: find the latest record of the minute and
     * delete every other record matching the same filter. The location is
     * looked up as the code does it.
     */
    method DeleteOldDetections(source: Source, now: int, locations: map<string, string>, dateOf: int -> string)
      requires Valid()
      modifies this
      ensures Valid() && nextId == old(nextId)
      ensures docs == Deduplicated(old(docs), MinuteQuery(source, LocationOfAsWritten(locations, source), now, dateOf))
    {
      var q := MinuteQuery(source, LocationOfAsWritten(locations, source), now, dateOf);
      var latest := GetLastDetection(docs, q);
      if latest.Some? {
        var survives := (d: Detection) => Survives(d, q, latest.value.id);
        var kept := Filter(docs, survives);
        FilterIdsDistinct(docs, survives);
        forall i | 0 <= i < |kept| ensures kept[i].id < nextId {
          assert kept[i] in docs;
        }
        docs := kept;
      }
    }

    /** The detection step of the capture loop: store a record for `now`, then prune its minute. */
    method RecordDetection(source: Source, now: int, locations: map<string, string>,
                           dateOf: int -> string, timeOf: int -> string) returns (id: nat)
      requires Valid()
      modifies this
      ensures Valid()
      ensures forall i :: 0 <= i < |old(docs)| ==> old(docs)[i].id != id
      ensures var location := LocationOfAsWritten(locations, source);
        docs == Deduplicated(old(docs) + [NewDetection(id, source, location, now, dateOf, timeOf)],
                             MinuteQuery(source, location, now, dateOf))
    {
      id := InsertOne(NewDetection(0, source, LocationOfAsWritten(locations, source), now, dateOf, timeOf));
      DeleteOldDetections(source, now, locations, dateOf);
    }
  }
}
