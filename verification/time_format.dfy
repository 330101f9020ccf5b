/** Broken-down times and their rendering with the issue store's `TIME_FORMAT`, "%F %Y at %T":
    "YYYY-MM-DD YYYY at HH:MM:SS". `strftime` writes the year with `{}` and the other fields
    with `{:02}`; `strptime` reads exactly four digits for a year and two digits, range
    checked, for every other field, and a later `%Y` overwrites the year an earlier `%F` set. */
module TimeFormat {
  import opened Options
  import opened Decimal

  /** The fields of a broken-down time that formatting, parsing and ordering look at:
      years since 1900, month 0-11, day of month, hour, minute, second, nanoseconds. */
  datatype Tm = Tm(year: int, mon: int, mday: int, hour: int, min: int, sec: int, nsec: int)

  /** `time::empty_tm()`: every field zero (so its day of month, 0, is out of range). */
  const EmptyTm := Tm(0, 0, 0, 0, 0, 0, 0)

  /** Stands in for comparing `to_timespec` values: lexicographic on the fields. The two
      orders agree on valid calendar dates with seconds at most 59 and one UTC offset. Other
      times that parse, such as February 31 or a leap second 23:59:60, are normalised by
      `to_timespec` before comparing, and there the orders can differ. */
  function Key(t: Tm): int {
    (((((t.year * 12 + t.mon) * 31 + t.mday) * 24 + t.hour) * 60 + t.min) * 61 + t.sec)
      * 1_000_000_000 + t.nsec
  }

  /** What survives a trip through the text format: everything but the nanoseconds. */
  function Truncate(t: Tm): Tm {
    t.(nsec := 0)
  }

  /** Rust's `{:02}`: zero-padded to two characters. */
  function Pad2(n: int): string {
    if 0 <= n < 10 then "0" + Render(n) else Render(n)
  }

  /** `strftime(TIME_FORMAT, t)`. */
  function Format(t: Tm): string {
    var year := Render(t.year + 1900);
    year + "-" + Pad2(t.mon + 1) + "-" + Pad2(t.mday) + " " + year + " at "
      + Pad2(t.hour) + ":" + Pad2(t.min) + ":" + Pad2(t.sec)
  }

  /** A fixed-width run of digits whose value lies in `lo..hi`. */
  function ReadField(s: string, lo: int, hi: int): (r: Option<int>)
    ensures r.Some? ==> lo <= r.value <= hi
  {
    var v :- DigitsValue(s);
    if lo <= v <= hi then Some(v) else None
  }

  /** `strptime(s, TIME_FORMAT)`. The directives read 27 characters, and text left over
      after the seconds is taken to be rejected, so the text must be exactly that long. */
  function Parse(s: string): (r: Option<Tm>)
    ensures r.Some? ==> ParsedRanges(r.value)
  {
    if |s| != 27 then None
    else
      var _ :- ReadField(s[0..4], 0, 9999);
      var mon :- if s[4] == '-' then ReadField(s[5..7], 1, 12) else None;
      var mday :- if s[7] == '-' then ReadField(s[8..10], 1, 31) else None;
      var year :- if s[10] == ' ' then ReadField(s[11..15], 0, 9999) else None;
      var hour :- if s[15..19] == " at " then ReadField(s[19..21], 0, 23) else None;
      var min :- if s[21] == ':' then ReadField(s[22..24], 0, 59) else None;
      var sec :- if s[24] == ':' then ReadField(s[25..27], 0, 60) else None;
      Some(Tm(year - 1900, mon - 1, mday, hour, min, sec, 0))
  }

  /** The field ranges `strptime` enforces. */
  predicate ParsedRanges(t: Tm) {
    && 0 <= t.year + 1900 <= 9999
    && 0 <= t.mon <= 11
    && 1 <= t.mday <= 31
    && 0 <= t.hour <= 23
    && 0 <= t.min <= 59
    && 0 <= t.sec <= 60
    && t.nsec == 0
  }

  /** Every field renders at the width the format expects. */
  predicate Aligned(t: Tm) {
    && 1000 <= t.year + 1900 <= 9999
    && 0 <= t.mon + 1 < 100
    && 0 <= t.mday < 100
    && 0 <= t.hour < 100
    && 0 <= t.min < 100
    && 0 <= t.sec < 100
  }

  /** Times that survive a trip through the text format (up to nanoseconds). */
  predicate Representable(t: Tm) {
    && 1000 <= t.year + 1900 <= 9999
    && 0 <= t.mon <= 11
    && 1 <= t.mday <= 31
    && 0 <= t.hour <= 23
    && 0 <= t.min <= 59
    && 0 <= t.sec <= 60
  }

  lemma Pad2Reads(n: int)
    requires 0 <= n < 100
    ensures |Pad2(n)| == 2 && DigitsValue(Pad2(n)) == Some(n)
  {
    NatDigitsWidth(n);
    DigitsValueOfNatDigits(n);
    if n < 10 {
      DigitsValueLeadingZero(NatDigits(n));
    }
  }

  lemma Pad2Width(n: int)
    requires 0 <= n < 100
    ensures |Pad2(n)| == 2
  {
    NatDigitsWidth(n);
  }

  lemma YearReads(y: int)
    requires 1000 <= y <= 9999
    ensures |Render(y)| == 4 && DigitsValue(Render(y)) == Some(y)
  {
    NatDigitsWidth(y);
    DigitsValueOfNatDigits(y);
  }

  /** Where each field of a formatted time sits in its 27 characters. */
  lemma FormatLayout(t: Tm)
    requires Aligned(t)
    ensures var s := Format(t);
      && |s| == 27
      && s[0..4] == Render(t.year + 1900) && s[4] == '-' && s[5..7] == Pad2(t.mon + 1)
      && s[7] == '-' && s[8..10] == Pad2(t.mday) && s[10] == ' '
      && s[11..15] == Render(t.year + 1900) && s[15..19] == " at "
      && s[19..21] == Pad2(t.hour) && s[21] == ':' && s[22..24] == Pad2(t.min)
      && s[24] == ':' && s[25..27] == Pad2(t.sec)
  {
    NatDigitsWidth(t.year + 1900);
    Pad2Width(t.mon + 1);
    Pad2Width(t.mday);
    Pad2Width(t.hour);
    Pad2Width(t.min);
    Pad2Width(t.sec);
    var y, mo, d := Render(t.year + 1900), Pad2(t.mon + 1), Pad2(t.mday);
    var h, mi, se := Pad2(t.hour), Pad2(t.min), Pad2(t.sec);
    assert Format(t) == y + "-" + mo + "-" + d + " " + y + " at " + h + ":" + mi + ":" + se;
    Layout(y, mo, d, h, mi, se);
  }

  /** The slicing facts behind `FormatLayout`, over arbitrary pieces of the right widths. */
  lemma Layout(y: string, mo: string, d: string, h: string, mi: string, se: string)
    requires |y| == 4 && |mo| == 2 && |d| == 2 && |h| == 2 && |mi| == 2 && |se| == 2
    ensures var s := y + "-" + mo + "-" + d + " " + y + " at " + h + ":" + mi + ":" + se;
      && |s| == 27
      && s[0..4] == y && s[4] == '-' && s[5..7] == mo && s[7] == '-' && s[8..10] == d
      && s[10] == ' ' && s[11..15] == y && s[15..19] == " at " && s[19..21] == h
      && s[21] == ':' && s[22..24] == mi && s[24] == ':' && s[25..27] == se
  {
    var s := y + "-" + mo + "-" + d + " " + y + " at " + h + ":" + mi + ":" + se;
    var p1 := y + "-" + mo + "-" + d + " ";
    var p2 := y + " at " + h + ":" + mi + ":" + se;
    assert s == p1 + p2;
    assert p1[0..4] == y && p1[5..7] == mo && p1[8..10] == d;
    assert p2[0..4] == y && p2[4..8] == " at " && p2[8..10] == h && p2[11..13] == mi && p2[14..16] == se;
    assert s[0..4] == p1[0..4];
    assert s[5..7] == p1[5..7];
    assert s[8..10] == p1[8..10];
    assert s[11..15] == p2[0..4];
    assert s[15..19] == p2[4..8];
    assert s[19..21] == p2[8..10];
    assert s[22..24] == p2[11..13];
    assert s[25..27] == p2[14..16];
  }

  /** Parsing a formatted time: parsing succeeds exactly when every field is in `strptime`'s
      range and the year has four digits, and then gives the time back without its
      nanoseconds. */
  lemma ParseOfFormat(t: Tm)
    ensures Parse(Format(t)) == if Representable(t) then Some(Truncate(t)) else None
  {
    if Aligned(t) {
      ParseOfAlignedFormat(t);
    } else {
      FormatParsesOnlyAligned(t);
    }
  }

  /** `ParseOfFormat` for a time whose fields render at the widths the format expects. */
  lemma ParseOfAlignedFormat(t: Tm)
    requires Aligned(t)
    ensures Parse(Format(t)) == if Representable(t) then Some(Truncate(t)) else None
  {
    FormatFieldsRead(t);
    ParseFields(Format(t), t.year + 1900, t.mon + 1, t.mday, t.hour, t.min, t.sec);
  }

  /** Every numeric field of a formatted time reads back as the value written. */
  lemma FormatFieldsRead(t: Tm)
    requires Aligned(t)
    ensures var s := Format(t);
      && |s| == 27
      && DigitsValue(s[0..4]) == Some(t.year + 1900) && DigitsValue(s[11..15]) == Some(t.year + 1900)
      && s[4] == '-' && DigitsValue(s[5..7]) == Some(t.mon + 1)
      && s[7] == '-' && DigitsValue(s[8..10]) == Some(t.mday) && s[10] == ' '
      && s[15..19] == " at " && DigitsValue(s[19..21]) == Some(t.hour)
      && s[21] == ':' && DigitsValue(s[22..24]) == Some(t.min)
      && s[24] == ':' && DigitsValue(s[25..27]) == Some(t.sec)
  {
    FormatLayout(t);
    YearReads(t.year + 1900);
    Pad2Reads(t.mon + 1);
    Pad2Reads(t.mday);
    Pad2Reads(t.hour);
    Pad2Reads(t.min);
    Pad2Reads(t.sec);
  }

  /** `Parse` on a text of the right shape whose numeric fields read as the given values. */
  lemma ParseFields(s: string, y: int, mo: int, d: int, h: int, mi: int, se: int)
    requires |s| == 27
    requires DigitsValue(s[0..4]) == Some(y) && DigitsValue(s[11..15]) == Some(y)
    requires s[4] == '-' && DigitsValue(s[5..7]) == Some(mo)
    requires s[7] == '-' && DigitsValue(s[8..10]) == Some(d) && s[10] == ' '
    requires s[15..19] == " at " && DigitsValue(s[19..21]) == Some(h)
    requires s[21] == ':' && DigitsValue(s[22..24]) == Some(mi)
    requires s[24] == ':' && DigitsValue(s[25..27]) == Some(se)
    ensures Parse(s) ==
              if 0 <= y <= 9999 && 1 <= mo <= 12 && 1 <= d <= 31 && 0 <= h <= 23 && 0 <= mi <= 59 && 0 <= se <= 60
              then Some(Tm(y - 1900, mo - 1, d, h, mi, se, 0))
              else None
  {
  }

  /** A formatted time whose text parses has every field at its usual width: a field that
      rendered wider, narrower or with a minus sign would put a separator where `strptime`
      expects a digit, or a digit where it expects a separator. */
  lemma FormatParsesOnlyAligned(t: Tm)
    ensures Parse(Format(t)).Some? ==> Aligned(t)
  {
    if Parse(Format(t)).Some? {
      ParseShape(Format(t));
      ShapedFormatIsAligned(t);
    }
  }

  lemma ShapedFormatIsAligned(t: Tm)
    requires Shaped(Format(t))
    ensures Aligned(t)
  {
    RenderIsNumeral(t.year + 1900);
    Pad2IsNumeral(t.mon + 1);
    Pad2IsNumeral(t.mday);
    Pad2IsNumeral(t.hour);
    Pad2IsNumeral(t.min);
    Pad2IsNumeral(t.sec);
    FormatPieces(t);
    WidthsFromShape(Render(t.year + 1900), Pad2(t.mon + 1), Pad2(t.mday), Pad2(t.hour), Pad2(t.min), Pad2(t.sec));
    YearWidth(t.year + 1900);
  }

  /** `Format` as the concatenation of its pieces. */
  lemma FormatPieces(t: Tm)
    ensures Format(t) == Render(t.year + 1900) + "-" + Pad2(t.mon + 1) + "-" + Pad2(t.mday) + " "
      + Render(t.year + 1900) + " at " + Pad2(t.hour) + ":" + Pad2(t.min) + ":" + Pad2(t.sec)
  {
  }

  /** The separators and digit runs every parsable text has. */
  ghost predicate Shaped(s: string) {
    && |s| == 27
    && (forall i :: 0 <= i < 4 ==> IsDigit(s[i])) && s[4] == '-'
    && (forall i :: 5 <= i < 7 ==> IsDigit(s[i])) && s[7] == '-'
    && (forall i :: 8 <= i < 10 ==> IsDigit(s[i])) && s[10] == ' '
    && (forall i :: 19 <= i < 21 ==> IsDigit(s[i])) && s[21] == ':'
    && (forall i :: 22 <= i < 24 ==> IsDigit(s[i])) && s[24] == ':'
    && (forall i :: 25 <= i < 27 ==> IsDigit(s[i]))
  }

  lemma ParseShape(s: string)
    requires Parse(s).Some?
    ensures Shaped(s)
  {
    assert |s| == 27;
    assert ReadField(s[0..4], 0, 9999).Some? && s[4] == '-';
    assert ReadField(s[5..7], 1, 12).Some? && s[7] == '-';
    assert ReadField(s[8..10], 1, 31).Some? && s[10] == ' ';
    assert ReadField(s[11..15], 0, 9999).Some? && s[15..19] == " at ";
    assert ReadField(s[19..21], 0, 23).Some? && s[21] == ':';
    assert ReadField(s[22..24], 0, 59).Some? && s[24] == ':';
    assert ReadField(s[25..27], 0, 60).Some?;
    assert forall i :: 0 <= i < 4 ==> s[0..4][i] == s[i];
    assert forall i :: 5 <= i < 7 ==> s[5..7][i - 5] == s[i];
    assert forall i :: 8 <= i < 10 ==> s[8..10][i - 8] == s[i];
    assert forall i :: 19 <= i < 21 ==> s[19..21][i - 19] == s[i];
    assert forall i :: 22 <= i < 24 ==> s[22..24][i - 22] == s[i];
    assert forall i :: 25 <= i < 27 ==> s[25..27][i - 25] == s[i];
  }

  /** The widths of the pieces of a shaped text built the way `Format` builds it. */
  lemma WidthsFromShape(y: string, mo: string, d: string, h: string, mi: string, se: string)
    requires Numeral(y) && Numeral(mo) && Numeral(d) && Numeral(h) && Numeral(mi) && Numeral(se)
    requires Shaped(y + "-" + mo + "-" + d + " " + y + " at " + h + ":" + mi + ":" + se)
    ensures |y| == 4 && |mo| == 2 && |d| == 2 && |h| == 2 && |mi| == 2 && |se| == 2
    ensures IsDigit(y[0]) && IsDigit(mo[0]) && IsDigit(d[0]) && IsDigit(h[0]) && IsDigit(mi[0])
    ensures IsDigit(se[0])
  {
    var s := y + "-" + mo + "-" + d + " " + y + " at " + h + ":" + mi + ":" + se;
    var t5 := mi + ":" + se;
    var t4 := h + ":" + t5;
    var t3 := y + " at " + t4;
    var t2 := d + " " + t3;
    var t1 := mo + "-" + t2;
    RightNested(y, mo, d, h, mi, se);
    PeelAt(s, 0, y, '-', t1, 4);
    PeelAt(s, 5, mo, '-', t2, 2);
    PeelAt(s, 8, d, ' ', t3, 2);
    SkipAt(s, 11, y + " at ", t4);
    PeelAt(s, 19, h, ':', t5, 2);
    PeelAt(s, 22, mi, ':', se, 2);
    assert se[0] == s[25];
  }

  /** The text `Format` builds, regrouped from the right. */
  lemma RightNested(y: string, mo: string, d: string, h: string, mi: string, se: string)
    ensures y + "-" + mo + "-" + d + " " + y + " at " + h + ":" + mi + ":" + se
            == y + "-" + (mo + "-" + (d + " " + (y + " at " + (h + ":" + (mi + ":" + se)))))
  {
  }

  /** A numeral followed by the non-digit `c`, at position `off` of a text that has exactly
      `k` digits from there on, is those `k` digits. */
  lemma PeelAt(s: string, off: int, p: string, c: char, rest: string, k: int)
    requires 0 <= off <= |s| && s[off..] == p + [c] + rest
    requires Numeral(p) && !IsDigit(c)
    requires 1 <= k && off + k < |s| && (forall i :: off <= i < off + k ==> IsDigit(s[i]))
    requires !IsDigit(s[off + k])
    ensures |p| == k && IsDigit(p[0]) && s[off + k + 1..] == rest
  {
    var u := s[off..];
    assert forall i :: 0 <= i < k ==> u[i] == s[off + i];
    assert u[k] == s[off + k];
    Peel(u, p, c, rest, k);
    assert s[off + k + 1..] == u[k + 1..];
  }

  lemma SkipAt(s: string, off: int, q: string, rest: string)
    requires 0 <= off <= |s| && s[off..] == q + rest
    ensures s[off + |q|..] == rest
  {
    assert s[off + |q|..] == s[off..][|q|..];
  }

  lemma Peel(s: string, p: string, c: char, rest: string, k: int)
    requires s == p + [c] + rest
    requires Numeral(p) && !IsDigit(c)
    requires 1 <= k < |s| && (forall i :: 0 <= i < k ==> IsDigit(s[i])) && !IsDigit(s[k])
    ensures |p| == k && IsDigit(p[0]) && s[k + 1..] == rest
  {
    assert s[0] == p[0];
    assert s[|p|] == c;
    assert forall j :: 0 < j < |p| ==> s[j] == p[j] && IsDigit(p[j]);
    assert s[|p| + 1..] == rest;
  }

  /** `Pad2` renders a numeral, and a two-character rendering starting with a digit comes
      from a number below 100. */
  lemma Pad2IsNumeral(n: int)
    ensures Numeral(Pad2(n))
    ensures IsDigit(Pad2(n)[0]) && |Pad2(n)| == 2 ==> 0 <= n < 100
  {
    RenderIsNumeral(n);
    if n >= 0 {
      NatDigitsWidth(n);
    }
  }

  /** A four-character rendering starting with a digit comes from a four-digit year. */
  lemma YearWidth(y: int)
    ensures IsDigit(Render(y)[0]) && |Render(y)| == 4 ==> 1000 <= y <= 9999
  {
    RenderIsNumeral(y);
    if y >= 0 {
      NatDigitsWidth(y);
    }
  }

  /** A time that survives the format comes back unchanged when it has no nanoseconds. */
  lemma FormatRoundTrip(t: Tm)
    requires Representable(t)
    ensures Parse(Format(t)) == Some(Truncate(t))
    ensures t.nsec == 0 ==> Parse(Format(t)) == Some(t)
  {
    ParseOfFormat(t);
  }

  /** `empty_tm()` has day of month 0, which `strptime` rejects: its rendering
      "1900-01-00 1900 at 00:00:00" never parses. */
  lemma EmptyTmDoesNotParse()
    ensures Parse(Format(EmptyTm)) == None
  {
    ParseOfFormat(EmptyTm);
  }
}
