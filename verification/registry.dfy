/** The in-memory registry that remembers, per mockup id, the directory its
    uploaded files are stored under, and the composition of that directory
    from the request's location, the current date and hour, and the mockup id.
    The registry is a map threaded explicitly through every operation. */
module StoredFiles {

  import opened Wrappers
  import opened Strings

  type MockupId = string

  datatype SessionData = SessionData(destination: string)

  type Registry = map<MockupId, SessionData>

  /** The `mockupId` field of the parsed `main_data` JSON document. */
  datatype JsonField = Missing | JsonString(s: string) | JsonOther

  /** The `from_location` query parameter: absent, a string, or any other
      parsed value (an array for a repeated key, an object for `key[k]=v`),
      which is always truthy. */
  datatype QueryValue = QueryAbsent | QueryString(s: string) | QueryOther

  /** The id check's error, and `path.join`'s rejection of a non-string part. */
  datatype StoreError = InvalidMockupId | InvalidLocation

  /** The calendar fields read from the clock: `getFullYear()`,
      `getMonth()` (zero-based), `getDate()`, `getHours()`. */
  datatype DateParts = DateParts(year: nat, monthIndex: nat, day: nat, hour: nat)

  /** `getMockupStoragePath`: the stored destination, or null. */
  function Get(reg: Registry, id: MockupId): (r: Option<string>)
    ensures r.Some? <==> id in reg
    ensures r.Some? ==> r.value == reg[id].destination
  {
    if id in reg then Some(reg[id].destination) else None
  }

  /** `saveMockupStoragePath`: set (or overwrite) the entry for `id`. */
  function Save(reg: Registry, id: MockupId, destination: string): (r: Registry)
    ensures Get(r, id) == Some(destination)
    ensures forall other :: other != id ==> Get(r, other) == Get(reg, other)
  {
    reg[id := SessionData(destination)]
  }

  /** `removeMockupStoragePath`: delete the entry for `id`, if any. */
  function Remove(reg: Registry, id: MockupId): (r: Registry)
    ensures Get(r, id) == None
    ensures forall other :: other != id ==> Get(r, other) == Get(reg, other)
  {
    reg - {id}
  }

  /** A later save replaces an earlier one for the same id. */
  lemma SaveOverwrites(reg: Registry, id: MockupId, d1: string, d2: string)
    ensures Save(Save(reg, id, d1), id, d2) == Save(reg, id, d2)
  {
  }

  /** `String(n).padStart(2, "0")` for a date part below one hundred:
      exactly two decimal digits that read back as `n`. */
  function TwoDigits(n: nat): (r: string)
    ensures n < 100 ==> |r| == 2
    ensures n < 100 ==> forall i :: 0 <= i < |r| ==> IsDigit(r[i])
    ensures n < 100 ==> DecimalValue(r) == n
  {
    if n < 100 then PaddedDigits(n); PadStart2(NatToString(n)) else PadStart2(NatToString(n))
  }

  lemma PaddedDigits(n: nat)
    requires n < 100
    ensures var r := PadStart2(NatToString(n));
      |r| == 2 && (forall i :: 0 <= i < |r| ==> IsDigit(r[i])) && DecimalValue(r) == n
  {
    NatToStringRoundTrip(n);
    var r := PadStart2(NatToString(n));
    if n < 10 {
      assert r == "0" + NatToString(n);
      assert r[..1] == "0";
    }
  }

  /** `(req.query.from_location as string) || "unknown"`: the cast checks
      nothing, so a non-string value is kept as it is; `None` stands for that
      non-string location. */
  function LocationOf(fromLocation: QueryValue): (r: Option<string>)
    ensures r.None? <==> fromLocation.QueryOther?
    ensures r.Some? ==> r.value != ""
    ensures fromLocation.QueryString? && fromLocation.s != "" ==> r == Some(fromLocation.s)
    ensures fromLocation.QueryAbsent? || fromLocation == QueryString("") ==> r == Some("unknown")
  {
    match fromLocation
    case QueryAbsent => Some("unknown")
    case QueryString(s) => if s != "" then Some(s) else Some("unknown")
    case QueryOther => None
  }

  lemma ConcatEnds(a: string, b: string, c: string)
    ensures StartsWith(a + b + c, a) && EndsWith(a + b + c, c)
    ensures (a + b + c)[|a|..|a + b + c| - |c|] == b
  {
    assert (a + b + c)[..|a|] == a;
    assert (a + b + c)[|a + b + c| - |c|..] == c;
  }

  /** The date part of the storage directory: `year/MM/DD/HH`. */
  function DateSegments(date: DateParts): string {
    NatToString(date.year) + "/" + TwoDigits(date.monthIndex + 1) + "/"
    + TwoDigits(date.day) + "/" + TwoDigits(date.hour)
  }

  /** Exactly two decimal digits that read as `n`. */
  predicate TwoDigitField(t: string, n: nat) {
    |t| == 2 && IsDigit(t[0]) && IsDigit(t[1]) && DecimalValue(t) == n
  }

  /** `s` is the year `y`, then `m`, `d` and `h` as two-digit fields, each
      after a `/`. */
  predicate DateLayout(s: string, y: string, m: nat, d: nat, h: nat) {
    && |s| == |y| + 9 && s[..|y|] == y
    && s[|y|] == '/' && s[|y| + 3] == '/' && s[|y| + 6] == '/'
    && TwoDigitField(s[|y| + 1..|y| + 3], m)
    && TwoDigitField(s[|y| + 4..|y| + 6], d)
    && TwoDigitField(s[|y| + 7..], h)
  }

  /** For a clock reading (month index 0–11, day and hour below 100) the
      date part is the year, then the 1-based month, the day and the hour,
      each as exactly two decimal digits, separated by `/`. */
  lemma DateSegmentsLayout(date: DateParts)
    requires date.monthIndex < 12 && date.day < 100 && date.hour < 100
    ensures DateLayout(DateSegments(date), NatToString(date.year), date.monthIndex + 1, date.day, date.hour)
  {
    var y := NatToString(date.year);
    var mm, dd, hh := TwoDigits(date.monthIndex + 1), TwoDigits(date.day), TwoDigits(date.hour);
    TwoDigitsField(date.monthIndex + 1);
    TwoDigitsField(date.day);
    TwoDigitsField(date.hour);
    assert DateSegments(date) == y + "/" + mm + "/" + dd + "/" + hh;
    SplitDate(y, mm, dd, hh, date.monthIndex + 1, date.day, date.hour);
  }

  lemma TwoDigitsField(n: nat)
    requires n < 100
    ensures TwoDigitField(TwoDigits(n), n)
  {
    var t := TwoDigits(n);
    assert IsDigit(t[0]) && IsDigit(t[1]);
  }

  /** Three two-digit fields after a year, separated by `/`, sit at fixed
      offsets from the year's end. */
  lemma SplitDate(y: string, mm: string, dd: string, hh: string, m: nat, d: nat, h: nat)
    requires TwoDigitField(mm, m) && TwoDigitField(dd, d) && TwoDigitField(hh, h)
    ensures DateLayout(y + "/" + mm + "/" + dd + "/" + hh, y, m, d, h)
  {
    var s := y + "/" + mm + "/" + dd + "/" + hh;
    assert s[|y| + 1..|y| + 3] == mm && s[|y| + 4..|y| + 6] == dd && s[|y| + 7..] == hh;
  }

  /** The storage directory `uploadDir/location/year/MM/DD/HH/mockupId`. */
  function Destination(uploadDir: string, location: string, date: DateParts, id: MockupId): (r: string)
    ensures StartsWith(r, uploadDir + "/" + location + "/")
    ensures EndsWith(r, "/" + id)
    ensures |r| == |uploadDir + "/" + location + "/"| + |DateSegments(date)| + |"/" + id|
    ensures r[|uploadDir + "/" + location + "/"|..|r| - |"/" + id|] == DateSegments(date)
  {
    var prefix := uploadDir + "/" + location + "/";
    var suffix := "/" + id;
    var r := prefix + DateSegments(date) + suffix;
    ConcatEnds(prefix, DateSegments(date), suffix);
    r
  }

  /** The id check of `createMockupStoragePath`: present, a string, non-empty. */
  function ValidMockupId(field: JsonField): (r: Option<MockupId>)
    ensures r.Some? <==> field.JsonString? && field.s != ""
    ensures r.Some? ==> r.value == field.s
  {
    match field
    case JsonString(s) => if s != "" then Some(s) else None
    case _ => None
  }

  /** `createMockupStoragePath` without the directory creation: validate the
      id, compose the destination and record it. The id is checked first; a
      non-string location then makes `path.join` throw before anything is
      recorded. */
  function CreateMockupStoragePath(reg: Registry, fromLocation: QueryValue, date: DateParts,
                                   field: JsonField, uploadDir: string)
    : (r: Result<(Registry, string), StoreError>)
    ensures r.Failure? <==> !(field.JsonString? && field.s != "") || fromLocation.QueryOther?
    ensures !(field.JsonString? && field.s != "") ==> r == Failure(InvalidMockupId)
    ensures field.JsonString? && field.s != "" && fromLocation.QueryOther? ==> r == Failure(InvalidLocation)
    ensures r.Success? ==> Get(r.value.0, field.s) == Some(r.value.1)
    ensures r.Success? ==> forall other :: other != field.s ==> Get(r.value.0, other) == Get(reg, other)
    ensures r.Success? ==> StartsWith(r.value.1, uploadDir + "/" + LocationOf(fromLocation).value + "/")
    ensures r.Success? ==> EndsWith(r.value.1, "/" + field.s)
    ensures r.Success? ==> r.value.1 == Destination(uploadDir, LocationOf(fromLocation).value, date, field.s)
  {
    match ValidMockupId(field)
    case None => Failure(InvalidMockupId)
    case Some(id) =>
      match LocationOf(fromLocation)
      case None => Failure(InvalidLocation)
      case Some(location) =>
        var destination := Destination(uploadDir, location, date, id);
        Success((Save(reg, id, destination), destination))
  }
}
