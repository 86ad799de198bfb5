/**
 * The catalog client's data shapes and its display helpers (src/lib/api.ts):
 * the cover-URL fallback, the `m:ss` duration formatter and the view-count
 * abbreviator. The fetch functions are network I/O and are not part of the model.
 */
module Api {
  import opened Wrappers
  import opened JsBuiltins

  // ---------------------------------------------------------------------------
  // Data shapes returned by the catalog API (only the fields the core reads)
  // ---------------------------------------------------------------------------

  /** A title in a listing or on the detail page. Optional fields are `None` when the API omits them. */
  datatype Drama = Drama(
    bookId: string,
    bookName: string,
    coverWap: Option<string>,
    cover: Option<string>,
    bookCover: Option<string>,
    introduction: string,
    viewCount: Option<int>,
    followCount: Option<int>)

  /** One tile of the detail page's episode grid. */
  datatype Chapter = Chapter(id: string, name: string, unlock: bool, chapterPrice: int)

  /** One rendition of an episode on a CDN. */
  datatype VideoPath = VideoPath(quality: int, videoPath: string, isDefault: int)

  /** A CDN entry; the player guards against a missing path list, so it is optional here. */
  datatype Cdn = Cdn(cdnDomain: string, isDefault: int, videoPathList: Option<seq<VideoPath>>)

  /** A playable episode; the player guards against a missing CDN list, so it is optional here. */
  datatype Episode = Episode(
    chapterId: string,
    chapterName: string,
    cdnList: Option<seq<Cdn>>,
    chapterImg: string,
    chargeChapter: bool)

  // ---------------------------------------------------------------------------
  // getCoverUrl
  // ---------------------------------------------------------------------------

  /** JavaScript truthiness of an optional string: present and non-empty. */
  predicate Truthy(o: Option<string>) {
    o.Some? && o.value != ""
  }

  /** Reference reading of an `a || b || ... || ""` chain: the first truthy candidate, else "". */
  function FirstTruthy(candidates: seq<Option<string>>): (r: string)
    ensures r == "" <==> forall i :: 0 <= i < |candidates| ==> !Truthy(candidates[i])
    ensures r != "" ==> exists i :: 0 <= i < |candidates| && Truthy(candidates[i]) && r == candidates[i].value
                                  && forall j :: 0 <= j < i ==> !Truthy(candidates[j])
  {
    if candidates == [] then ""
    else if Truthy(candidates[0]) then candidates[0].value
    else
      var r := FirstTruthy(candidates[1..]);
      assert forall i :: 1 <= i < |candidates| ==> candidates[i] == candidates[1..][i - 1];
      r
  }

  /** `drama.coverWap || drama.cover || drama.bookCover || ""`. */
  function CoverUrl(drama: Drama): (r: string)
    ensures Truthy(drama.coverWap) ==> r == drama.coverWap.value
    ensures !Truthy(drama.coverWap) && Truthy(drama.cover) ==> r == drama.cover.value
    ensures !Truthy(drama.coverWap) && !Truthy(drama.cover) && Truthy(drama.bookCover) ==> r == drama.bookCover.value
    ensures r == "" <==> !Truthy(drama.coverWap) && !Truthy(drama.cover) && !Truthy(drama.bookCover)
  {
    if Truthy(drama.coverWap) then drama.coverWap.value
    else if Truthy(drama.cover) then drama.cover.value
    else if Truthy(drama.bookCover) then drama.bookCover.value
    else ""
  }

  /** The cover is the first truthy candidate of the three, in the source's order. */
  lemma CoverUrlIsFirstTruthy(drama: Drama)
    ensures CoverUrl(drama) == FirstTruthy([drama.coverWap, drama.cover, drama.bookCover])
  {
    var c := [drama.coverWap, drama.cover, drama.bookCover];
    assert c[1..] == [drama.cover, drama.bookCover];
    assert c[1..][1..] == [drama.bookCover];
    assert c[1..][1..][1..] == [];
    assert FirstTruthy([drama.bookCover]) == if Truthy(drama.bookCover) then drama.bookCover.value else "";
    assert FirstTruthy(c[1..]) == if Truthy(drama.cover) then drama.cover.value else FirstTruthy([drama.bookCover]);
  }

  // ---------------------------------------------------------------------------
  // formatDuration
  // ---------------------------------------------------------------------------

  /**
   * `formatDuration(ms)`: whole seconds `Math.floor(ms / 1000)`, minutes by floor division
   * (Dafny's `/` rounds down for a positive divisor, as `Math.floor` does), seconds by the
   * truncating `%`, then `${mins}:${secs.toString().padStart(2, "0")}`.
   */
  function FormatDuration(ms: real): string
  {
    FormatSeconds((ms / 1000.0).Floor)
  }

  /** The `${mins}:${secs...}` part of `formatDuration`, on the whole seconds. */
  function FormatSeconds(seconds: int): string
  {
    var mins := seconds / 60;
    var secs := TruncRem(seconds, 60);
    IntToString(mins) + ":" + PadStart(IntToString(secs), 2, '0')
  }

  /** A number below 100 padded to two digits reads back as itself. */
  lemma TwoDigitField(n: nat)
    requires n < 100
    ensures var p := PadStart(NatToString(n), 2, '0');
            |p| == 2 && AllDigits(p) && DecimalValue(p) == n
  {
    NatToStringBelowHundred(n);
    NatToStringValue(n);
    var d := NatToString(n);
    var p := PadStart(d, 2, '0');
    if |d| == 1 {
      assert p == ['0'] + d;
      assert p[..1] == ['0'];
      assert DecimalValue(p[..1]) == 0 by {
        assert p[..1][..0] == [];
      }
    }
  }

  /**
   * `r` reads as `<minutes>:<ss>` for `seconds` whole seconds: the minutes are an
   * unpadded, uncapped decimal (there is no hours field), the seconds field is exactly
   * two digits with a value below 60, and minutes * 60 + seconds == `seconds`.
   */
  ghost predicate MinutesSecondsOf(r: string, seconds: int) {
    var k := |r| - 3;
    && |r| >= 4
    && r[k] == ':'
    && (r[0] == '0' ==> k == 1)
    && AllDigits(r[..k]) && AllDigits(r[k + 1..])
    && |r[k + 1..]| == 2
    && DecimalValue(r[k + 1..]) < 60
    && DecimalValue(r[..k]) * 60 + DecimalValue(r[k + 1..]) == seconds
  }

  /** A non-negative duration formats as minutes and two-digit seconds of its whole seconds. */
  lemma FormatDurationFields(ms: real)
    requires ms >= 0.0
    ensures MinutesSecondsOf(FormatDuration(ms), (ms / 1000.0).Floor)
  {
    var seconds := (ms / 1000.0).Floor;
    assert seconds >= 0;
    FormatSecondsFields(seconds);
  }

  lemma FormatSecondsFields(seconds: nat)
    ensures MinutesSecondsOf(FormatSeconds(seconds), seconds)
  {
    var mins, secs := seconds / 60, seconds % 60;
    assert TruncRem(seconds, 60) == secs;
    var m := NatToString(mins);
    var p := PadStart(NatToString(secs), 2, '0');
    assert IntToString(mins) == m;
    assert IntToString(secs) == NatToString(secs);
    assert FormatSeconds(seconds) == m + ":" + p;
    TwoDigitField(secs);
    NatToStringValue(mins);
    MinutesSecondsOfJoin(m, p, mins, secs);
  }

  lemma MinutesSecondsOfJoin(m: string, p: string, mins: nat, secs: nat)
    requires |m| >= 1 && AllDigits(m) && DecimalValue(m) == mins
    requires m[0] == '0' ==> |m| == 1
    requires |p| == 2 && AllDigits(p) && DecimalValue(p) == secs && secs < 60
    ensures MinutesSecondsOf(m + ":" + p, mins * 60 + secs)
  {
    var r := m + ":" + p;
    var k := |r| - 3;
    assert r[..k] == m;
    assert r[k + 1..] == p;
  }

  /** Sub-second input is truncated, not rounded: anything below one second is "0:00". */
  lemma FormatDurationSubSecond(ms: real)
    requires 0.0 <= ms < 1000.0
    ensures FormatDuration(ms) == "0:00"
  {
    assert (ms / 1000.0).Floor == 0;
    assert PadStart("0", 2, '0') == "00";
  }

  /** One hour renders as sixty minutes, not as an hours field. */
  lemma FormatDurationOneHour()
    ensures FormatDuration(3600000.0) == "60:00"
  {
    assert (3600000.0 / 1000.0).Floor == 3600;
    assert NatToString(60) == "60";
    assert PadStart("0", 2, '0') == "00";
  }

  // ---------------------------------------------------------------------------
  // formatViewCount
  // ---------------------------------------------------------------------------

  /** The argument of `formatViewCount: (count: string | number | undefined)`, numbers restricted to integers. */
  datatype ViewCount = Absent | Text(s: string) | Number(n: int)

  /** `!count`: undefined, the empty string and zero are falsy. */
  predicate IsFalsy(c: ViewCount) {
    c.Absent? || (c.Text? && c.s == "") || (c.Number? && c.n == 0)
  }

  /** The unit `n` is scaled by rounded to tenths, half up: (20n + unit) / (2 unit). */
  function Tenths(n: nat, unit: nat): (t: nat)
    requires unit > 0
    ensures 2 * unit * t <= 20 * n + unit < 2 * unit * t + 2 * unit
  {
    var num, den := 20 * n + unit, 2 * unit;
    assert num == den * (num / den) + num % den;
    num / den
  }

  /** `(n / unit).toFixed(1)` on the exact quotient: `<whole>.<tenth>`. */
  function FixedOne(n: nat, unit: nat): (r: string)
    requires unit > 0
    ensures |r| >= 3 && r[|r| - 2] == '.'
    ensures AllDigits(r[..|r| - 2]) && IsDigit(r[|r| - 1])
    ensures var t := DecimalValue(r[..|r| - 2]) * 10 + (r[|r| - 1] as int - '0' as int);
            2 * unit * t <= 20 * n + unit < 2 * unit * t + 2 * unit
    ensures r[0] == '0' ==> |r| == 3
  {
    var t := Tenths(n, unit);
    var whole := NatToString(t / 10);
    NatToStringValue(t / 10);
    var r := whole + "." + [DigitChar(t % 10)];
    assert r[..|r| - 2] == whole;
    assert r[0] == whole[0];
    r
  }

  /** `formatViewCount(count)` for the string, undefined and integer cases. */
  function FormatViewCount(c: ViewCount): string
  {
    if IsFalsy(c) then "0"
    else match c
      case Absent => "0"
      case Text(s) => s
      case Number(n) =>
        if n >= 1000000 then FixedOne(n, 1000000) + "M"
        else if n >= 1000 then FixedOne(n, 1000) + "K"
        else IntToString(n)
  }

  /** Undefined, "" and 0 all give "0"; any other string is returned as it is. */
  lemma FormatViewCountTextCases(c: ViewCount)
    ensures IsFalsy(c) ==> FormatViewCount(c) == "0"
    ensures c.Text? && c.s != "" ==> FormatViewCount(c) == c.s
  {
  }

  /**
   * For a non-zero integer: the text ends in "M" exactly when n >= 1,000,000, in "K"
   * exactly when 1,000 <= n < 1,000,000, and is otherwise the plain decimal of n (with a
   * minus sign when negative). The scaled branches show the quotient to within a twentieth.
   */
  lemma FormatViewCountSuffix(n: int)
    requires n != 0
    ensures var r := FormatViewCount(Number(n));
            && |r| >= 1
            && (r[|r| - 1] == 'M' <==> n >= 1000000)
            && (r[|r| - 1] == 'K' <==> 1000 <= n < 1000000)
            && (n < 1000 ==> r == IntToString(n))
            && (n >= 1000 ==> |r| >= 4 && r[|r| - 3] == '.' && AllDigits(r[..|r| - 3]) && IsDigit(r[|r| - 2]))
            && (n >= 1000 ==> (r[0] == '0' ==> |r| == 4))
            && (n >= 1000 ==>
                  var unit := if n >= 1000000 then 1000000 else 1000;
                  var t := DecimalValue(r[..|r| - 3]) * 10 + (r[|r| - 2] as int - '0' as int);
                  2 * unit * t <= 20 * n + unit < 2 * unit * t + 2 * unit)
  {
    if n >= 1000 {
      var unit := if n >= 1000000 then 1000000 else 1000;
      SuffixedFixedOne(n, unit, if n >= 1000000 then 'M' else 'K');
    }
  }

  /** `(n / unit).toFixed(1)` followed by a suffix letter: the letter closes a `<whole>.<digit>` field. */
  lemma SuffixedFixedOne(n: nat, unit: nat, c: char)
    requires unit > 0
    ensures var r := FixedOne(n, unit) + [c];
            && |r| >= 4 && r[|r| - 1] == c
            && r[|r| - 3] == '.' && AllDigits(r[..|r| - 3]) && IsDigit(r[|r| - 2])
            && (r[0] == '0' ==> |r| == 4)
            && var t := DecimalValue(r[..|r| - 3]) * 10 + (r[|r| - 2] as int - '0' as int);
               2 * unit * t <= 20 * n + unit < 2 * unit * t + 2 * unit
  {
    var f := FixedOne(n, unit);
    var r := f + [c];
    assert r[..|r| - 3] == f[..|f| - 2];
    assert r[|r| - 2] == f[|f| - 1];
    assert r[0] == f[0];
  }

  /** A detail page's optional `viewCount` / `followCount` as the argument of `formatViewCount`. */
  function ViewCountOf(o: Option<int>): (c: ViewCount)
    ensures c.Absent? <==> o.None?
    ensures o.Some? ==> c == Number(o.value)
  {
    if o.None? then Absent else Number(o.value)
  }

  /** A detail page's count shows "0" exactly when it is missing or zero. */
  lemma FormatOptionalCount(o: Option<int>)
    ensures FormatViewCount(ViewCountOf(o)) == "0" <==> o.None? || o.value == 0
  {
    if o.Some? && o.value != 0 {
      FormatViewCountSuffix(o.value);
    }
  }
}
