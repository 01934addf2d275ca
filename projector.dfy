/**
 * The client state projector of the dashboard page: what it derives from
 * every pushed snapshot and from the two filter controls. The page's state
 * is replaced wholesale by its setters, so it is modelled as a record, and
 * each event as a function from the old record to the new one.
 */
module Projector {
  import opened Strings
  import opened Sequences

  /** The calendar and clock fields of an instant in the viewer's time zone. */
  datatype LocalTime = LocalTime(year: nat, month: nat, day: nat, hour: nat, minute: nat)

  /**
   * A detection object as the page handles it: the store's `_id`, the
   * `timestamp` as pushed (an ISO-8601 string), `source`, the stored `date`
   * and `time` strings, the producer's capitalised `Location`, and the
   * `location` key the page fills in.
   */
  datatype Row = Row(id: string, timestamp: string, source: int, Location: string,
                     date: string, time: string, location: string)

  /** The number of rows the page shows at most. */
  const Cap := 100

  /** A British short date: day and month padded to two digits, then the year, joined by `/`. */
  function DisplayDate(t: LocalTime): (date: string)
    ensures Split(date, '/') == [TwoDigits(t.day), TwoDigits(t.month), Decimal(t.year)]
  {
    DigitsFree(TwoDigits(t.day), '/'); DigitsFree(TwoDigits(t.month), '/'); DigitsFree(Decimal(t.year), '/');
    SplitThree(TwoDigits(t.day), TwoDigits(t.month), Decimal(t.year), '/');
    TwoDigits(t.day) + "/" + TwoDigits(t.month) + "/" + Decimal(t.year)
  }

  /** A 24-hour clock time with two-digit hour and minute. */
  function DisplayTime(t: LocalTime): (time: string)
    ensures Split(time, ':') == [TwoDigits(t.hour), TwoDigits(t.minute)]
  {
    DigitsFree(TwoDigits(t.hour), ':'); DigitsFree(TwoDigits(t.minute), ':');
    SplitAfterPiece(TwoDigits(t.hour), ':', TwoDigits(t.minute));
    SplitPiece(TwoDigits(t.minute), ':');
    TwoDigits(t.hour) + ":" + TwoDigits(t.minute)
  }

  /**
   * One step of the `map` in the message handler: the object is spread,
   * `date` and `time` are recomputed from `timestamp` (`local` is the
   * browser's parse of it into its own time zone), and `location` is
   * taken from `Location`.
   */
  function NormaliseRow(d: Row, local: string -> LocalTime): Row
  {
    var t := local(d.timestamp);
    d.(date := DisplayDate(t), time := DisplayTime(t), location := d.Location)
  }

  /**
   * The `map` of the message handler. Every normalised row keeps its
   * position, takes `location` from `Location`, `date` and `time` from
   * `timestamp`, and copies every other field.
   */
  function Normalise(rows: seq<Row>, local: string -> LocalTime): (r: seq<Row>)
    ensures |r| == |rows|
    ensures forall i :: 0 <= i < |rows| ==>
      && r[i].location == rows[i].Location
      && r[i].date == DisplayDate(local(rows[i].timestamp))
      && r[i].time == DisplayTime(local(rows[i].timestamp))
      && r[i].id == rows[i].id && r[i].timestamp == rows[i].timestamp
      && r[i].source == rows[i].source && r[i].Location == rows[i].Location
  {
    seq(|rows|, i requires 0 <= i < |rows| => NormaliseRow(rows[i], local))
  }

  /** The stored `date`, `time` and `location` strings never reach the result. */
  lemma NormaliseIgnoresStoredText(a: seq<Row>, b: seq<Row>, local: string -> LocalTime)
    requires |a| == |b|
    requires forall i :: 0 <= i < |a| ==>
      a[i].id == b[i].id && a[i].timestamp == b[i].timestamp &&
      a[i].source == b[i].source && a[i].Location == b[i].Location
    ensures Normalise(a, local) == Normalise(b, local)
  {
  }

  /** `detections.map(d => d.location)`. */
  function LocationColumn(rows: seq<Row>): (ls: seq<string>)
    ensures |ls| == |rows| && forall i :: 0 <= i < |rows| ==> ls[i] == rows[i].location
  {
    seq(|rows|, i requires 0 <= i < |rows| => rows[i].location)
  }

  lemma BelowIsTotalPreorder()
    ensures TotalPreorder(Below) && Antisymmetric(Below)
  {
    forall a: string, b: string ensures Below(a, b) || Below(b, a) {
      BelowTotal(a, b);
    }
    forall a: string, b: string, c: string | Below(a, b) && Below(b, c) ensures Below(a, c) {
      BelowTransitive(a, b, c);
    }
    forall a: string, b: string | Below(a, b) && Below(b, a) ensures a == b {
      BelowAntisymmetric(a, b);
    }
  }

  /**
   * The options of the location selector: `[...new Set(locations)].sort()`.
   * Ascending, each location once, exactly the locations of the rows.
   */
  function UniqueLocations(rows: seq<Row>): (locs: seq<string>)
    ensures SortedBy(locs, Below) && Distinct(locs)
    ensures forall l :: l in locs <==> exists i :: 0 <= i < |rows| && rows[i].location == l
    ensures rows == [] ==> locs == []
  {
    var column := LocationColumn(rows);
    assert forall l :: l in column <==> exists i :: 0 <= i < |rows| && rows[i].location == l;
    BelowIsTotalPreorder();
    Sort(Dedup(column), Below)
  }

  /** Any ascending list of distinct strings holding exactly the rows' locations is the selector's list. */
  lemma UniqueLocationsCanonical(rows: seq<Row>, other: seq<string>)
    requires SortedBy(other, Below) && Distinct(other)
    requires forall l :: l in other <==> exists i :: 0 <= i < |rows| && rows[i].location == l
    ensures other == UniqueLocations(rows)
  {
    BelowIsTotalPreorder();
    SortedDistinctUnique(other, UniqueLocations(rows), Below);
  }

  /** The row passes both filters; an empty filter passes every row. */
  predicate Shown(r: Row, locationFilter: string, dateFilter: string)
  {
    (locationFilter == "" || r.location == locationFilter) &&
    (dateFilter == "" || r.date == dateFilter)
  }

  /**
   * The filter effect: keep the rows at the selected location if one is
   * selected, then those of the selected date if one is selected, then
   * the first 100.
   */
  function View(detections: seq<Row>, locationFilter: string, dateFilter: string): (v: seq<Row>)
    ensures |v| <= Cap
    ensures forall r :: r in v ==> r in detections && Shown(r, locationFilter, dateFilter)
  {
    var byLocation := if locationFilter != "" then Filter(detections, (r: Row) => r.location == locationFilter)
                      else detections;
    var byDate := if dateFilter != "" then Filter(byLocation, (r: Row) => r.date == dateFilter)
                  else byLocation;
    Take(byDate, Cap)
  }

  /** The view is the first 100 rows of the snapshot that pass both filters. */
  lemma ViewIsFirstShown(detections: seq<Row>, locationFilter: string, dateFilter: string)
    ensures View(detections, locationFilter, dateFilter)
         == Take(Filter(detections, (r: Row) => Shown(r, locationFilter, dateFilter)), Cap)
  {
    var shown := (r: Row) => Shown(r, locationFilter, dateFilter);
    var byLocation := (r: Row) => r.location == locationFilter;
    var byDate := (r: Row) => r.date == dateFilter;
    if locationFilter == "" && dateFilter == "" {
      FilterKeepsAll(detections, shown);
    } else if dateFilter == "" {
      FilterExtensional(detections, byLocation, shown);
    } else if locationFilter == "" {
      FilterExtensional(detections, byDate, shown);
    } else {
      FilterFilter(detections, byLocation, byDate, shown);
    }
  }

  /** The view keeps the snapshot's order: it is a subsequence of it. */
  lemma ViewIsSubsequence(detections: seq<Row>, locationFilter: string, dateFilter: string)
    ensures SubsequenceOf(View(detections, locationFilter, dateFilter), detections)
  {
    var shown := (r: Row) => Shown(r, locationFilter, dateFilter);
    ViewIsFirstShown(detections, locationFilter, dateFilter);
    PrefixSubsequence(Filter(detections, shown), detections, View(detections, locationFilter, dateFilter));
  }

  /** When at most 100 rows pass, every one of them is shown. */
  lemma ViewComplete(detections: seq<Row>, locationFilter: string, dateFilter: string, i: nat)
    requires i < |detections| && Shown(detections[i], locationFilter, dateFilter)
    requires |Filter(detections, (r: Row) => Shown(r, locationFilter, dateFilter))| <= Cap
    ensures detections[i] in View(detections, locationFilter, dateFilter)
  {
    ViewIsFirstShown(detections, locationFilter, dateFilter);
  }

  /** With both filters empty the view is the snapshot's first 100 rows. */
  lemma ViewUnfiltered(detections: seq<Row>)
    ensures View(detections, "", "") == Take(detections, Cap)
  {
  }

  /** Piece `i` of a destructured `split` as a template literal prints it: a missing piece reads `undefined`. */
  function Piece(parts: seq<string>, i: nat): string
  {
    if i < |parts| then parts[i] else "undefined"
  }

  /** The conversion in `handleDateChange`: the date control's `YYYY-MM-DD` to the display form `DD/MM/YYYY`. */
  function ControlToDisplay(value: string): (date: string)
    ensures value == "" <==> date == ""
  {
    if value == "" then ""
    else
      var parts := Split(value, '-');
      Piece(parts, 2) + "/" + Piece(parts, 1) + "/" + Piece(parts, 0)
  }

  /** `getFormattedDate`: the display form `DD/MM/YYYY` back to the control's `YYYY-MM-DD`. */
  function DisplayToControl(date: string): (value: string)
    ensures date == "" <==> value == ""
  {
    if date == "" then ""
    else
      var parts := Split(date, '/');
      Piece(parts, 2) + "-" + Piece(parts, 1) + "-" + Piece(parts, 0)
  }

  /** A control value of three pieces free of `-` and `/` survives the trip to the display form and back. */
  lemma ControlRoundTrip(year: string, month: string, day: string)
    requires '-' !in year && '-' !in month && '-' !in day
    requires '/' !in year && '/' !in month && '/' !in day
    ensures DisplayToControl(ControlToDisplay(year + "-" + month + "-" + day)) == year + "-" + month + "-" + day
  {
    SplitThree(year, month, day, '-');
    assert ControlToDisplay(year + "-" + month + "-" + day) == day + "/" + month + "/" + year;
    SplitThree(day, month, year, '/');
  }

  /** A display date of three pieces free of `-` and `/` survives the trip to the control form and back. */
  lemma DisplayRoundTrip(day: string, month: string, year: string)
    requires '-' !in year && '-' !in month && '-' !in day
    requires '/' !in year && '/' !in month && '/' !in day
    ensures ControlToDisplay(DisplayToControl(day + "/" + month + "/" + year)) == day + "/" + month + "/" + year
  {
    SplitThree(day, month, year, '/');
    assert DisplayToControl(day + "/" + month + "/" + year) == year + "-" + month + "-" + day;
    SplitThree(year, month, day, '-');
  }

  /** Every date the table shows is one the date control can hold and give back unchanged. */
  lemma DisplayDateRoundTrip(t: LocalTime)
    ensures ControlToDisplay(DisplayToControl(DisplayDate(t))) == DisplayDate(t)
  {
    var d, m, y := TwoDigits(t.day), TwoDigits(t.month), Decimal(t.year);
    DigitsFree(d, '-'); DigitsFree(m, '-'); DigitsFree(y, '-');
    DigitsFree(d, '/'); DigitsFree(m, '/'); DigitsFree(y, '/');
    DisplayRoundTrip(d, m, y);
  }

  /** Picking a day in the control yields the filter that matches the rows displayed with that day. */
  lemma ControlSelectsDisplayDate(t: LocalTime)
    ensures ControlToDisplay(Decimal(t.year) + "-" + TwoDigits(t.month) + "-" + TwoDigits(t.day)) == DisplayDate(t)
  {
    var d, m, y := TwoDigits(t.day), TwoDigits(t.month), Decimal(t.year);
    DigitsFree(d, '-'); DigitsFree(m, '-'); DigitsFree(y, '-');
    SplitThree(y, m, d, '-');
  }

  /**
   * The round trip needs pieces free of `/` as well: when the year piece of
   * a control value holds a `/`, the way back splits it apart and loses
   * what follows it.
   */
  lemma SlashInPieceBreaksRoundTrip(a: string, b: string, month: string, day: string)
    requires '-' !in a && '-' !in b && '-' !in month && '-' !in day
    requires '/' !in a && '/' !in b && '/' !in month && '/' !in day
    ensures var value := a + "/" + b + "-" + month + "-" + day;
      DisplayToControl(ControlToDisplay(value)) == a + "-" + month + "-" + day != value
  {
    var year := a + "/" + b;
    SplitThree(year, month, day, '-');
    assert ControlToDisplay(year + "-" + month + "-" + day) == day + "/" + month + "/" + year;
    var shown := day + "/" + month + "/" + year;
    assert shown == day + "/" + (month + "/" + (a + "/" + b));
    SplitAfterPiece(day, '/', month + "/" + (a + "/" + b));
    SplitAfterPiece(month, '/', a + "/" + b);
    SplitAfterPiece(a, '/', b);
    SplitPiece(b, '/');
    assert Split(shown, '/') == [day, month, a, b];
  }

  /** The page's state: the latest snapshot, the selector's options, the two filters and the rows shown. */
  datatype State = State(detections: seq<Row>, locations: seq<string>,
                         locationFilter: string, dateFilter: string, filteredDetections: seq<Row>)

  /** The state when the page mounts, before any message. */
  const Mounted := State([], [], "", "", [])

  /** The derived parts agree with the snapshot and the filters. */
  predicate Consistent(s: State)
  {
    s.locations == UniqueLocations(s.detections) &&
    s.filteredDetections == View(s.detections, s.locationFilter, s.dateFilter)
  }

  /** The filter effect, which runs after every change of the snapshot or of a filter. */
  function Refilter(s: State): (r: State)
    ensures r.filteredDetections == View(s.detections, s.locationFilter, s.dateFilter)
    ensures r.(filteredDetections := s.filteredDetections) == s
  {
    s.(filteredDetections := View(s.detections, s.locationFilter, s.dateFilter))
  }

  /** What `JSON.parse` makes of a message: an array of detection objects, another JSON value, or a parse failure. */
  datatype Message = Snapshot(rows: seq<Row>) | OtherValue | Unparsable

  /**
   * The message handler followed by the filter effect. Anything but an
   * array throws before the first setter runs, leaving the state as it was.
   */
  function OnMessage(s: State, m: Message, local: string -> LocalTime): (r: State)
    ensures !m.Snapshot? ==> r == s
    ensures m.Snapshot? ==> r.detections == Normalise(m.rows, local) && Consistent(r)
    ensures r.locationFilter == s.locationFilter && r.dateFilter == s.dateFilter
    ensures Consistent(s) ==> Consistent(r)
  {
    match m
    case Snapshot(rows) =>
      var detections := Normalise(rows, local);
      Refilter(s.(detections := detections, locations := UniqueLocations(detections)))
    case _ => s
  }

  /** The location selector's `onChange`, followed by the filter effect. */
  function SetLocationFilter(s: State, value: string): (r: State)
    ensures r.locationFilter == value
    ensures r.detections == s.detections && r.dateFilter == s.dateFilter && r.locations == s.locations
    ensures Consistent(s) ==> Consistent(r)
  {
    Refilter(s.(locationFilter := value))
  }

  /** `handleDateChange`, followed by the filter effect. */
  function HandleDateChange(s: State, value: string): (r: State)
    ensures r.dateFilter == ControlToDisplay(value)
    ensures r.detections == s.detections && r.locationFilter == s.locationFilter && r.locations == s.locations
    ensures Consistent(s) ==> Consistent(r)
  {
    Refilter(s.(dateFilter := ControlToDisplay(value)))
  }

  /** The value the date control shows. */
  function DateControlValue(s: State): string
  {
    DisplayToControl(s.dateFilter)
  }

  lemma MountedConsistent()
    ensures Consistent(Mounted)
  {
  }

  /** A snapshot replaces the previous one outright: the result depends on the filters and the message only. */
  lemma SnapshotReplaces(s: State, t: State, rows: seq<Row>, local: string -> LocalTime)
    requires s.locationFilter == t.locationFilter && s.dateFilter == t.dateFilter
    ensures OnMessage(s, Snapshot(rows), local) == OnMessage(t, Snapshot(rows), local)
  {
  }

  /** Filters work from the full snapshot each time: only the latest choice matters. */
  lemma LocationFilterRestarts(s: State, first: string, second: string)
    ensures SetLocationFilter(SetLocationFilter(s, first), second) == SetLocationFilter(s, second)
  {
  }

  lemma DateFilterRestarts(s: State, first: string, second: string)
    ensures HandleDateChange(HandleDateChange(s, first), second) == HandleDateChange(s, second)
  {
  }

  /** Clearing the location filter shows the first 100 rows that pass the date filter. */
  lemma ClearLocationFilter(s: State)
    ensures SetLocationFilter(s, "").filteredDetections
         == Take(Filter(s.detections, (r: Row) => s.dateFilter == "" || r.date == s.dateFilter), Cap)
  {
    ViewIsFirstShown(s.detections, "", s.dateFilter);
    FilterExtensional(s.detections, (r: Row) => Shown(r, "", s.dateFilter),
                      (r: Row) => s.dateFilter == "" || r.date == s.dateFilter);
  }

  /** Clearing the date control shows the first 100 rows that pass the location filter. */
  lemma ClearDateFilter(s: State)
    ensures HandleDateChange(s, "").filteredDetections
         == Take(Filter(s.detections, (r: Row) => s.locationFilter == "" || r.location == s.locationFilter), Cap)
  {
    ViewIsFirstShown(s.detections, s.locationFilter, "");
    FilterExtensional(s.detections, (r: Row) => Shown(r, s.locationFilter, ""),
                      (r: Row) => s.locationFilter == "" || r.location == s.locationFilter);
  }

  /** Setting the control to the value it shows leaves a well-formed date filter as it is. */
  lemma DateControlStable(s: State, day: string, month: string, year: string)
    requires s.dateFilter == day + "/" + month + "/" + year
    requires '-' !in year && '-' !in month && '-' !in day
    requires '/' !in year && '/' !in month && '/' !in day
    ensures HandleDateChange(s, DateControlValue(s)).dateFilter == s.dateFilter
  {
    DisplayRoundTrip(day, month, year);
  }
}
