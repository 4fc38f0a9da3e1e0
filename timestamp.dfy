/** The `_crawled_at` stamp: a wall-clock reading written with the
    `strftime` pattern `%Y-%m-%d %H:%M:%S`. */
module Timestamps {
  import opened Wrappers
  import opened Text

  /** A reading of the clock, as `datetime.now()` returns it. */
  datatype DateTime = DateTime(year: nat, month: nat, day: nat, hour: nat, minute: nat, second: nat)

  /** The readings the model covers: four-digit years and in-range fields. */
  predicate ValidDateTime(t: DateTime)
  {
    1000 <= t.year <= 9999 && 1 <= t.month <= 12 && 1 <= t.day <= 31
    && t.hour < 24 && t.minute < 60 && t.second < 60
  }

  /** `n` written with exactly `width` digits, zero-padded on the left. */
  function Field(n: nat, width: nat): string
  {
    ZeroPad(NatToDigits(n), width)
  }

  /** A number below `10^width` fills its field exactly, and reads back. */
  lemma FieldSpec(n: nat, width: nat)
    requires 1 <= width && n < Pow10(width)
    ensures |Field(n, width)| == width
    ensures AllDigits(Field(n, width))
    ensures DigitsToNat(Field(n, width)) == n
  {
    NatToDigitsLength(n, width);
    PaddedNumeral(n, width);
  }

  function DatePart(t: DateTime): string
  {
    Field(t.year, 4) + "-" + Field(t.month, 2) + "-" + Field(t.day, 2)
  }

  function TimePart(t: DateTime): string
  {
    Field(t.hour, 2) + ":" + Field(t.minute, 2) + ":" + Field(t.second, 2)
  }

  /** `t.strftime("%Y-%m-%d %H:%M:%S")`. */
  function FormatTimestamp(t: DateTime): string
  {
    DatePart(t) + " " + TimePart(t)
  }

  /** The stamp has the shape `YYYY-MM-DD HH:MM:SS`: 19 characters, the
      separators at their places and a digit everywhere else. */
  predicate StampShape(s: string)
  {
    && |s| == 19
    && s[4] == '-' && s[7] == '-' && s[10] == ' ' && s[13] == ':' && s[16] == ':'
    && AllDigits(s[..4]) && AllDigits(s[5..7]) && AllDigits(s[8..10])
    && AllDigits(s[11..13]) && AllDigits(s[14..16]) && AllDigits(s[17..])
  }

  /** Reads a `YYYY-MM-DD HH:MM:SS` stamp back into its fields. */
  function ParseTimestamp(s: string): Option<DateTime>
  {
    if StampShape(s) then
      Some(DateTime(DigitsToNat(s[..4]), DigitsToNat(s[5..7]), DigitsToNat(s[8..10]),
                    DigitsToNat(s[11..13]), DigitsToNat(s[14..16]), DigitsToNat(s[17..])))
    else None
  }

  /** Two parts joined by `sep`, sliced back apart. */
  lemma Join(x: string, sep: char, y: string)
    ensures var s := x + [sep] + y;
      |s| == |x| + |y| + 1 && s[..|x|] == x && s[|x|] == sep && s[|x| + 1..] == y
  {
    var s := x + [sep] + y;
    assert s[..|x|] == x;
    assert s[|x| + 1..] == y;
  }

  /** Three parts joined by `sep`, sliced back apart. */
  lemma Join3(x: string, sep: char, y: string, z: string)
    ensures var s := x + [sep] + y + [sep] + z;
      && |s| == |x| + |y| + |z| + 2
      && s[..|x|] == x && s[|x|] == sep && s[|x| + 1..|x| + 1 + |y|] == y
      && s[|x| + 1 + |y|] == sep && s[|x| + |y| + 2..] == z
  {
    var a := x + [sep] + y;
    Join(x, sep, y);
    Join(a, sep, z);
    SliceOfPrefix(x + [sep] + y + [sep] + z, |a|, 0, |x|);
    SliceOfPrefix(x + [sep] + y + [sep] + z, |a|, |x| + 1, |a|);
  }

  lemma SliceOfPrefix(s: string, n: nat, i: nat, j: nat)
    requires i <= j <= n <= |s|
    ensures s[..n][i..j] == s[i..j]
  {
  }

  lemma SliceOfSuffix(s: string, n: nat, i: nat, j: nat)
    requires n <= |s| && i <= j <= |s| - n
    ensures s[n..][i..j] == s[n + i..n + j]
  {
  }

  /** Six fields of widths 4, 2, 2, 2, 2, 2 joined into the stamp pattern,
      sliced back apart. */
  lemma StampJoin(y: string, mo: string, d: string, h: string, mi: string, se: string)
    requires |y| == 4 && |mo| == 2 && |d| == 2 && |h| == 2 && |mi| == 2 && |se| == 2
    ensures var s := (y + "-" + mo + "-" + d) + " " + (h + ":" + mi + ":" + se);
      && |s| == 19
      && s[4] == '-' && s[7] == '-' && s[10] == ' ' && s[13] == ':' && s[16] == ':'
      && s[..4] == y && s[5..7] == mo && s[8..10] == d
      && s[11..13] == h && s[14..16] == mi && s[17..] == se
  {
    var date, time := y + "-" + mo + "-" + d, h + ":" + mi + ":" + se;
    Join3(y, '-', mo, d);
    Join3(h, ':', mi, se);
    Join(date, ' ', time);
    var s := date + " " + time;
    SliceOfPrefix(s, 10, 0, 4);
    SliceOfPrefix(s, 10, 5, 7);
    SliceOfPrefix(s, 10, 8, 10);
    SliceOfSuffix(s, 11, 0, 2);
    SliceOfSuffix(s, 11, 3, 5);
    SliceOfSuffix(s, 11, 6, 8);
  }

  /** The six fields of the stamp, each at its fixed position. */
  lemma StampFields(t: DateTime)
    requires ValidDateTime(t)
    ensures var s := FormatTimestamp(t);
      && |s| == 19
      && s[4] == '-' && s[7] == '-' && s[10] == ' ' && s[13] == ':' && s[16] == ':'
      && s[..4] == Field(t.year, 4) && s[5..7] == Field(t.month, 2) && s[8..10] == Field(t.day, 2)
      && s[11..13] == Field(t.hour, 2) && s[14..16] == Field(t.minute, 2) && s[17..] == Field(t.second, 2)
  {
    FieldSpec(t.year, 4);
    FieldSpec(t.month, 2);
    FieldSpec(t.day, 2);
    FieldSpec(t.hour, 2);
    FieldSpec(t.minute, 2);
    FieldSpec(t.second, 2);
    StampJoin(Field(t.year, 4), Field(t.month, 2), Field(t.day, 2),
              Field(t.hour, 2), Field(t.minute, 2), Field(t.second, 2));
  }

  /** Every valid reading is written in the `YYYY-MM-DD HH:MM:SS` shape. */
  lemma FormatTimestampShape(t: DateTime)
    requires ValidDateTime(t)
    ensures StampShape(FormatTimestamp(t))
  {
    StampFields(t);
    FieldSpec(t.year, 4);
    FieldSpec(t.month, 2);
    FieldSpec(t.day, 2);
    FieldSpec(t.hour, 2);
    FieldSpec(t.minute, 2);
    FieldSpec(t.second, 2);
  }

  /** Reading a written stamp gives back the clock reading. */
  lemma ParseFormatTimestamp(t: DateTime)
    requires ValidDateTime(t)
    ensures ParseTimestamp(FormatTimestamp(t)) == Some(t)
  {
    StampFields(t);
    FieldSpec(t.year, 4);
    FieldSpec(t.month, 2);
    FieldSpec(t.day, 2);
    FieldSpec(t.hour, 2);
    FieldSpec(t.minute, 2);
    FieldSpec(t.second, 2);
  }
}
