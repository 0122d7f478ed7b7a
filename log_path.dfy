/**
 * The dated log file both the writer (server/utils/log_writer.py) and the
 * query side (apps/server/metrics/datapoints.py) use:
 * `<log dir>/metrics-YYYYMMDD.jsonl`, the date written by `strftime("%Y%m%d")`.
 */
module LogPath {
  import opened Strings
  import opened PyValue

  /** A date `strftime` and `strptime` handle: years 1 to 9999. */
  predicate ValidDate(d: Date) {
    1 <= d.year <= 9999 && 1 <= d.month <= 12 && 1 <= d.day <= 31
  }

  function Pow10(n: nat): (r: nat)
    ensures r >= 1
  {
    if n == 0 then 1 else 10 * Pow10(n - 1)
  }

  /** `n` as exactly `width` decimal digits, zero-padded on the left (`%04d`, `%02d`). */
  function Padded(n: nat, width: nat): (s: string)
    ensures |s| == width
    ensures forall i :: 0 <= i < |s| ==> IsDigit(s[i])
  {
    if width == 0 then "" else Padded(n / 10, width - 1) + [DigitChar(n % 10)]
  }

  /** Reading the padded digits back gives the number, as long as it fits the width. */
  lemma {:induction false} PaddedValue(n: nat, width: nat)
    requires n < Pow10(width)
    ensures DigitsValue(Padded(n, width)) == n
  {
    if width > 0 {
      var s := Padded(n, width);
      PaddedValue(n / 10, width - 1);
      assert s[..|s| - 1] == Padded(n / 10, width - 1);
      assert DigitValue(s[|s| - 1]) == n % 10;
    }
  }

  /** `strftime("%Y%m%d")`: four digits of year, two of month, two of day. */
  function DateStamp(d: Date): (s: string)
    ensures |s| == 8
    ensures forall i :: 0 <= i < |s| ==> IsDigit(s[i])
  {
    Padded(d.year, 4) + Padded(d.month, 2) + Padded(d.day, 2)
  }

  /** Distinct dates get distinct stamps: the stamp can be read back. */
  lemma DateStampInjective(d1: Date, d2: Date)
    requires ValidDate(d1) && ValidDate(d2)
    ensures DateStamp(d1) == DateStamp(d2) <==> d1 == d2
  {
    if DateStamp(d1) == DateStamp(d2) {
      var s1, s2 := DateStamp(d1), DateStamp(d2);
      assert s1[..4] == Padded(d1.year, 4) && s2[..4] == Padded(d2.year, 4);
      assert s1[4..6] == Padded(d1.month, 2) && s2[4..6] == Padded(d2.month, 2);
      assert s1[6..] == Padded(d1.day, 2) && s2[6..] == Padded(d2.day, 2);
      PaddedValue(d1.year, 4);
      PaddedValue(d2.year, 4);
      PaddedValue(d1.month, 2);
      PaddedValue(d2.month, 2);
      PaddedValue(d1.day, 2);
      PaddedValue(d2.day, 2);
    }
  }

  const FilePrefix := "/metrics-"
  const FileSuffix := ".jsonl"

  /** `log_dir / f"metrics-{date_str}.jsonl"`. */
  function LogFile(dir: string, d: Date): (path: string)
    ensures |path| == |dir| + |FilePrefix| + 8 + |FileSuffix|
    ensures StartsWith(path, dir + FilePrefix) && EndsWith(path, FileSuffix)
  {
    dir + FilePrefix + DateStamp(d) + FileSuffix
  }

  /** One file per day: two dates share a file exactly when they are the same date. */
  lemma LogFileInjective(dir: string, d1: Date, d2: Date)
    requires ValidDate(d1) && ValidDate(d2)
    ensures LogFile(dir, d1) == LogFile(dir, d2) <==> d1 == d2
  {
    var start := |dir| + |FilePrefix|;
    var p1, p2 := LogFile(dir, d1), LogFile(dir, d2);
    assert p1[start..start + 8] == DateStamp(d1);
    assert p2[start..start + 8] == DateStamp(d2);
    DateStampInjective(d1, d2);
  }
}
