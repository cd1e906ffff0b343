/** The two pure helpers of app/utils/helpers.py the routes rely on: the
    month count between two dates and the upload file-name check. */
module Helpers {
  import opened Wrappers
  import opened Text
  import opened Dates
  import opened Durations
  import opened BookingModel

  /** An argument of `calculate_duration_months`: a `YYYY-MM-DD` string or a
      `date` object. */
  datatype DateArg = Text(text: string) | Value(date: Date)

  /** A `date` object is always a real calendar date. */
  predicate WellTyped(arg: DateArg) {
    arg.Value? ==> ValidDate(arg.date)
  }

  /** The date an argument stands for; `None` where `strptime` raises. */
  function ReadDateArg(arg: DateArg): (r: Option<Date>)
    requires WellTyped(arg)
    ensures r.Some? ==> ValidDate(r.value)
    ensures arg.Value? ==> r == Some(arg.date)
  {
    match arg
    case Text(s) => ParseIso(s)
    case Value(d) => Some(d)
  }

  /** `calculate_duration_months(start, end)`: `max(1, days // 30 + 1)`;
      `None` stands for the `ValueError` a malformed string raises. */
  function CalculateDurationMonths(start: DateArg, end: DateArg): (r: Option<int>)
    requires WellTyped(start) && WellTyped(end)
    ensures r.None? <==> ReadDateArg(start).None? || ReadDateArg(end).None?
    ensures r.Some? ==> r.value >= 1
  {
    var s := ReadDateArg(start);
    var e := ReadDateArg(end);
    if s.None? || e.None? then None
    else Some(HelperMonths(DaysBetween(s.value, e.value)))
  }

  /** When the end is not before the start the helper counts like
      `Booking.duration_months`: one more than the whole 30-day blocks. */
  lemma {:induction false} HelperCountsBlocks(s: Date, e: Date)
    requires ValidDate(s) && ValidDate(e) && NotAfter(s, e)
    ensures CalculateDurationMonths(Value(s), Value(e)) == Some(DaysBetween(s, e) / 30 + 1)
  {
    DaysBetweenSign(s, e);
    HelperVersusRecord(DaysBetween(s, e));
  }

  /** A range that ends before it starts still counts as one month. */
  lemma {:induction false} HelperClampsReversed(s: Date, e: Date)
    requires ValidDate(s) && ValidDate(e) && Before(e, s)
    ensures CalculateDurationMonths(Value(s), Value(e)) == Some(1)
  {
    DaysBetweenSign(s, e);
    HelperVersusRecord(DaysBetween(s, e));
  }

  /** For a booking whose end is not before its start, the helper and the
      record's `duration_months` agree. */
  lemma {:induction false} HelperMatchesBooking(b: Booking)
    requires ValidDate(b.startDate) && ValidDate(b.endDate) && NotAfter(b.startDate, b.endDate)
    ensures CalculateDurationMonths(Value(b.startDate), Value(b.endDate)) == Some(DurationMonths(b))
  {
    HelperCountsBlocks(b.startDate, b.endDate);
  }

  /** Passing a date as its ISO string reads back that date, so either
      argument may be given as a string or as a date, independently of the
      other, and the count is the same. */
  lemma {:induction false} TextArgumentsAgree(d: Date, other: DateArg)
    requires ValidDate(d) && WellTyped(other)
    ensures ReadDateArg(Text(FormatIso(d))) == Some(d)
    ensures CalculateDurationMonths(Text(FormatIso(d)), other) == CalculateDurationMonths(Value(d), other)
    ensures CalculateDurationMonths(other, Text(FormatIso(d))) == CalculateDurationMonths(other, Value(d))
  {
    ParseFormat(d);
  }

  /** A later end never gives fewer months. */
  lemma {:induction false} HelperMonotoneInEnd(s: Date, e1: Date, e2: Date)
    requires ValidDate(s) && ValidDate(e1) && ValidDate(e2) && NotAfter(e1, e2)
    ensures CalculateDurationMonths(Value(s), Value(e1)).value
            <= CalculateDurationMonths(Value(s), Value(e2)).value
  {
    DaysBetweenSign(e1, e2);
    MonthsMonotone(DaysBetween(s, e1), DaysBetween(s, e2));
  }

  // ---- upload file names ----

  /** `ALLOWED_EXTENSIONS`. */
  const AllowedExtensions: set<string> := {"png", "jpg", "jpeg", "gif"}

  /** `filename.rsplit('.', 1)[1]` when the name has a dot: the text after
      the last dot. */
  function Extension(filename: string): (r: Option<string>)
    ensures r.None? <==> '.' !in filename
  {
    var k := LastIndexOf(filename, '.');
    assert k == -1 ==> forall j :: 0 <= j < |filename| ==> filename[j] != '.';
    if k == -1 then None else Some(filename[k + 1..])
  }

  /** One of the four extensions, in any letter case. Lower-casing is
      ASCII-only here; no other character lower-cases to a letter of the
      four. */
  predicate AllowedExtension(ext: string) {
    Lower(ext) in AllowedExtensions
  }

  /** `allowed_file(filename)`: the name has a dot and the text after the
      last one is an allowed extension. */
  predicate AllowedFile(filename: string) {
    var ext := Extension(filename);
    ext.Some? && AllowedExtension(ext.value)
  }

  /** The dot at `i` is the last one and the text after it is an allowed
      extension. */
  predicate AllowedExtensionAt(filename: string, i: int) {
    && 0 <= i < |filename| && filename[i] == '.'
    && (forall j :: i < j < |filename| ==> filename[j] != '.')
    && AllowedExtension(filename[i + 1..])
  }

  /** The file name splits at a dot into a base and an extension that holds
      no dot and is one of the four, in any letter case. */
  ghost predicate HasAllowedExtension(filename: string) {
    exists i :: AllowedExtensionAt(filename, i)
  }

  /** A dot with no dot after it is the last dot. */
  lemma LastDotAt(filename: string, i: int)
    requires 0 <= i < |filename| && filename[i] == '.'
    requires forall j :: i < j < |filename| ==> filename[j] != '.'
    ensures LastIndexOf(filename, '.') == i
  {
  }

  /** An allowed name has an allowed final extension: the one after its last dot. */
  lemma AllowedFileSound(filename: string)
    requires AllowedFile(filename)
    ensures HasAllowedExtension(filename)
  {
    var k := LastIndexOf(filename, '.');
    assert Extension(filename) == Some(filename[k + 1..]);
    assert AllowedExtensionAt(filename, k);
  }

  /** A name with an allowed final extension is allowed. */
  lemma AllowedFileComplete(filename: string)
    requires HasAllowedExtension(filename)
    ensures AllowedFile(filename)
  {
    var i :| AllowedExtensionAt(filename, i);
    LastDotAt(filename, i);
  }

  /** `allowed_file` accepts exactly the names with an allowed final extension. */
  lemma AllowedFileIff(filename: string)
    ensures AllowedFile(filename) <==> HasAllowedExtension(filename)
  {
    if AllowedFile(filename) {
      AllowedFileSound(filename);
    }
    if HasAllowedExtension(filename) {
      AllowedFileComplete(filename);
    }
  }

  /** The extension of `base.ext` is `ext` when `ext` has no dot. */
  lemma {:induction false} ExtensionOfJoin(base: string, ext: string)
    requires '.' !in ext
    ensures Extension(base + "." + ext) == Some(ext)
  {
    var f := base + "." + ext;
    assert f[|base|] == '.';
    forall j | |base| < j < |f| ensures f[j] != '.' {
      assert f[j] == ext[j - |base| - 1];
    }
    LastDotAt(f, |base|);
    assert f[|base| + 1..] == ext;
  }

  /** Upper-case extensions pass and only the last extension counts. */
  lemma AllowedFileAccepts()
    ensures AllowedFile("photo.PNG")
    ensures AllowedFile("flat.tar.jpeg")
  {
    assert "photo.PNG" == "photo" + "." + "PNG";
    ExtensionOfJoin("photo", "PNG");
    assert Lower("PNG") == "png";
    assert "flat.tar.jpeg" == "flat.tar" + "." + "jpeg";
    ExtensionOfJoin("flat.tar", "jpeg");
    assert Lower("jpeg") == "jpeg";
  }

  /** A trailing foreign extension, a name without a dot and an empty
      extension all fail. */
  lemma AllowedFileRejects()
    ensures !AllowedFile("photo.png.exe")
    ensures !AllowedFile("png")
    ensures !AllowedFile("photo.")
  {
    assert "photo.png.exe" == "photo.png" + "." + "exe";
    ExtensionOfJoin("photo.png", "exe");
    assert Lower("exe")[0] == 'e';
    assert '.' !in "png";
    assert "photo." == "photo" + "." + "";
    ExtensionOfJoin("photo", "");
    assert |Lower("")| == 0;
  }
}
